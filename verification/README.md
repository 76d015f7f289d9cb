# B2Lib core, modelled in Dafny

A functional model of the core of B2Lib, a C# client library for the
Backblaze B2 storage service. The model covers:

- the cursor pagination engine (`B2BaseIterator`) and its four cursor
  policies: file names, file versions, unfinished large files and large-file
  parts;
- the bucket cache (`B2BucketCacher`, `B2BucketCache`) and the session
  snapshot (`B2SaveState`, `SaveState`/`LoadState` of both client revisions);
- the upload-credential pools: bucket-scoped in the clients, part-scoped in
  `B2File` and `B2LargeFile`;
- the entity state machines with their guards and hash checks: `B2Bucket`
  (Present -> Deleted), `B2File` (New -> Present -> Deleted, with the large-file
  action flag) and `B2LargeFile` (New -> Finished);
- the two `B2Client` revisions: the handle-returning one under `Client/` and the
  record-returning one at the top level;
- the pure parts of `B2Communicator`: timeouts, the token guard, error
  mapping, upload pre-checks, `X-Bz-Info-` headers and the content-type default;
- the `B2Uploader` builder, the SHA-1 hex rendering and `UnixDateTimeConverter`.

Everything is an immutable value and every operation a pure function. The
remote service is a `Remote.Backend` value holding one total function per
endpoint, and each endpoint answers a value or an `Error`. An operation on
mutable state returns an `Outcome` with three parts: the state afterwards,
the result or the exception, and the list of remote calls made, in order. This
list lets contracts say "no remote call before the guard" and "exactly one
mint". A credential bag is a sequence taken from its end, which is how a
`ConcurrentBag` behaves on one thread. Contracts also state the bag's multiset
view. A nullable string is `Option<string>` (`Text.NString`). An enumeration
is `Paging.Enumerate`, which fetches at most `fuel` pages. It is related to the
reference definitions `StateAt`, `PageAt` and `Yielded` (the state before,
and the result of, the `i`-th page fetch).

Files: `wrappers`, `text`, `hex`, `objects` and `remote` hold the shared
types. `paging` and the four `*_iterator` files hold the listings.
`bucket_cache`, `bucket_cacher`, `save_state`, `session` and `pools` hold the
cache, the snapshot and the pools. `buckets`, `files` and `large_files` hold the
entity handles. `handle_client` and `direct_client` hold the two client
revisions. `uploader`, `communicator`, `url_encoding` and `date_converter`
hold the helpers.

Where the source revisions disagree, the model follows the code:

- B2Lib/Client/B2File.cs returns a bucket credential in `finally`, so it goes back even after a hash mismatch.
- B2Lib/B2Client.cs records an updated bucket through `RecordBucket`, which writes only id and name, so the cached type goes stale.
- After a page flagged done, the name cursor of `B2FilesIterator` is null, so enumerating the same iterator again starts over from the first file rather than resuming.

## Model

| member | source | states |
|---|---|---|
| Paging.Enumerate | B2Lib/Utilities/B2BaseIterator.cs:20-33 | at most `fuel` pages are fetched; when the loop ends without reaching the bound, at least one page was fetched |
| Paging.EnumerateFollowsPages | B2Lib/Utilities/B2BaseIterator.cs:22-32 | the items yielded are the in-order concatenation of the pages fetched, each page in full; call `i` is the call of page `i`; every page but the last continued the loop; the last page was empty, flagged done, or threw |
| Paging.EnumerateCalls | B2Lib/Utilities/B2BaseIterator.cs:23-25 | the `i`-th remote call is the one the `i`-th page fetch made |
| Paging.EnumerateEnds | B2Lib/Utilities/B2BaseIterator.cs:27-32 | every page before the last had items and was not flagged done; the last page either ended the loop (empty or done) or failed with the reported error |
| Paging.EnumerateYields | B2Lib/Utilities/B2BaseIterator.cs:25-28 | the items are the reference concatenation `Yielded` of the pages fetched, and the iterator state is the one the last page left |
| Paging.EnumerateStopsAtFirstEnd | B2Lib/Utilities/B2BaseIterator.cs:22-32 | if page `k` is the first that is empty, done or failed, exactly `k + 1` pages are fetched, and the items are those of those pages |
| Paging.EnumerateBoundIrrelevant | B2Lib/Utilities/B2BaseIterator.cs:20-33 | once an enumeration ends within its page bound, a larger bound gives the same run |
| Paging.StateAtStep | B2Lib/Utilities/B2BaseIterator.cs:25 | after a successful fetch, the state is the one that fetch answered |
| Paging.StateAfterFirst | B2Lib/Utilities/B2BaseIterator.cs:23-32 | after a successful first page, the rest of the listing proceeds from the state it answered |
| Paging.CallAt | B2Lib/Utilities/B2BaseIterator.cs:25 | the `i`-th call of a run is the `i`-th page's call |
| Paging.ChainAt | B2Lib/Utilities/B2BaseIterator.cs:23-32 | every page after the first is requested from the state that the previous (successful) page answered |
| Paging.YieldedRespects | B2Lib/Utilities/B2BaseIterator.cs:25-28 | an iterator invariant kept by every fetch holds in every state reached; an item property every page guarantees holds of every yielded item |
| Paging.EnumerateRespects | B2Lib/Utilities/B2BaseIterator.cs:20-33 | the run-level form of the above: the final state keeps the invariant and every item has the property |
| Paging.Select | B2Lib/Utilities/B2FilesIterator.cs:29-35 | one output per page entry, in page order, each the entry wrapped |
| Paging.FirstOrDefault | B2Lib/Client/B2Bucket.cs:91-95 | exactly one page is fetched; the result is its first item, or nothing if the page is empty; it throws exactly when that fetch fails |
| Paging.FirstItemNeedsOnePage | B2Lib/Client/B2Bucket.cs:91-95 | the first item of an enumeration with any page bound is the item `FirstOrDefault` returns |
| FilesIterator.NewIterator | B2Lib/Utilities/B2FilesIterator.cs:14-20 | the cursor starts at the given start name, for the given bucket, with page size 1000 |
| FilesIterator.Stamp | B2Lib/Utilities/B2FilesIterator.cs:31-32 | the entry gets the client's account id and the iterated bucket id, and nothing else changes |
| FilesIterator.NextPage | B2Lib/Utilities/B2FilesIterator.cs:22-36 | one call with the bucket, the cursor and the page size; the cursor becomes the answered next name; the page is done iff that name is null; one stamped Present file per entry, in order; a failed call is rethrown wrapped |
| FilesIterator.PagesRespect | B2Lib/Utilities/B2FilesIterator.cs:22-36 | every fetch keeps the bucket and page size and yields only stamped, Present files |
| FilesIterator.EnumerationIsStamped | B2Lib/Utilities/B2FilesIterator.cs:29-35 | every file an enumeration yields is Present and carries the client's account id and the iterated bucket id |
| FilesIterator.RequestAt | B2Lib/Utilities/B2FilesIterator.cs:24-25 | the first request uses the start name; each later request uses the next name the previous answer gave, with the same bucket and page size |
| FilesIterator.ReenumerationRestarts | B2Lib/Utilities/B2FilesIterator.cs:12-27 | after an enumeration ended on a done page, the stored cursor is null, so enumerating again asks from the first name |
| VersionsIterator.NewIterator | B2Lib/Utilities/B2FileVersionsIterator.cs:16-23 | the (name, id) cursor starts at the constructor's pair, with page size 1000 |
| VersionsIterator.NextPage | B2Lib/Utilities/B2FileVersionsIterator.cs:25-43 | one call from the (name, id) cursor; both components are replaced by the answer's; done iff both are null; each item is its listed entry, stamped and wrapped unchanged otherwise: an entry with action `start` becomes a New large file and any other a Present file; count and order are kept |
| VersionsIterator.PagesRespect | B2Lib/Utilities/B2FileVersionsIterator.cs:33-42 | every fetch keeps the bucket and page size and yields only stamped items of the right kind |
| VersionsIterator.EnumerationIsStamped | B2Lib/Utilities/B2FileVersionsIterator.cs:33-42 | every version yielded carries the account and bucket ids; unfinished large files are New large-file handles and the rest are Present files |
| VersionsIterator.RequestAt | B2Lib/Utilities/B2FileVersionsIterator.cs:27-29 | the first request uses the start pair; each later one uses the pair the previous answer gave |
| VersionsIterator.IdAloneContinues | B2Lib/Utilities/B2FileVersionsIterator.cs:31 | a non-empty page that answers a next id without a next name is not the last one |
| UnfinishedIterator.NewIterator | B2Lib/Utilities/B2UnfinishedLargeFilesIterator.cs:14-20 | the id cursor starts at the constructor's start id, with page size 1000 |
| UnfinishedIterator.NextPage | B2Lib/Utilities/B2UnfinishedLargeFilesIterator.cs:22-33 | one call from the id cursor; the cursor becomes the answered next id; done iff that id is null; every entry is wrapped one-to-one, in order, with no stamping |
| UnfinishedIterator.PagesKeepListing | B2Lib/Utilities/B2UnfinishedLargeFilesIterator.cs:24-25 | every fetch keeps the bucket and page size |
| UnfinishedIterator.RequestAt | B2Lib/Utilities/B2UnfinishedLargeFilesIterator.cs:24-25 | the first request uses the start id; each later one uses the next id the previous answer gave |
| UnfinishedIterator.FirstOfOnePage | B2Lib/Client/B2Bucket.cs:91-95 | a page-size-one `FirstOrDefault` makes the single request for one entry from the start id and returns the wrapped first entry, if any |
| PartsIterator.NewIterator | B2Lib/Utilities/B2LargeFilePartsIterator.cs:11-16 | the part-number cursor starts at the given number (1 by default), with page size 1000 |
| PartsIterator.NextPage | B2Lib/Utilities/B2LargeFilePartsIterator.cs:18-26 | one call with the file id, part number and page size; the cursor becomes the answered next part number; done iff it is 0; the parts are returned unmodified |
| PartsIterator.ListingIsKept | B2Lib/Utilities/B2LargeFilePartsIterator.cs:20-21 | every state an enumeration reaches lists the same file with the same page size |
| PartsIterator.RequestAt | B2Lib/Utilities/B2LargeFilePartsIterator.cs:20-21 | the first request uses the start part number; each later one uses the next part number the previous answer gave |
| PartsIterator.AllParts | B2Lib/Client/B2LargeFile.cs:69-74 | listing every part succeeds exactly when the enumeration ran out; then it returns all the items; a failed fetch is rethrown |
| PartsIterator.InsertBounded | B2Lib/Client/B2LargeFile.cs:99 | inserting keeps a lower bound on part numbers |
| PartsIterator.InsertAddsOne | B2Lib/Client/B2LargeFile.cs:99 | inserting adds exactly the one part |
| PartsIterator.InsertSorted | B2Lib/Client/B2LargeFile.cs:99 | inserting into a sequence sorted by part number keeps it sorted |
| PartsIterator.InsertKeepsOrder | B2Lib/Client/B2LargeFile.cs:99 | inserting keeps the order and adds exactly the part |
| PartsIterator.SortOrdersAndPermutes | B2Lib/Client/B2LargeFile.cs:99 | `OrderBy(PartNumber)` is sorted by ascending part number and is a permutation of the listing |
| PartsIterator.WithNumberAppend | B2Lib/Client/B2LargeFile.cs:99 | the parts carrying a number, taken from a concatenation, are those of each half, in order |
| PartsIterator.WithNumberAbove | B2Lib/Client/B2LargeFile.cs:99 | a sorted sequence starting above `n` has no part numbered `n` |
| PartsIterator.InsertStable | B2Lib/Client/B2LargeFile.cs:99 | inserting places the part ahead of the parts sharing its number and keeps every other group |
| PartsIterator.SortIsStable | B2Lib/Client/B2LargeFile.cs:99 | the ordering is stable: parts with equal numbers keep their listing order |
| PartsIterator.OrderedHashes | B2Lib/Client/B2LargeFile.cs:99 | the hash list is the sorted parts' hashes, one per listed part, in ascending part order |
| PartsIterator.HashesArePermuted | B2Lib/Client/B2LargeFile.cs:99 | each listed part is sent exactly as often as it was listed |
| PartsIterator.OutOfOrderListingExample | B2Lib/Client/B2File.cs:254-256 | parts listed as 3, 1, 2 are finished with the hashes of 1, 2, 3 |
| BucketCacheEntry.CreateCopy | B2Lib/Objects/B2BucketCache.cs:15-24 | the copy has all four fields equal to the original's |
| BucketCacheEntry.CreateBucketClass | B2Lib/Objects/B2BucketCache.cs:26-35 | the bucket record keeps id, name, type and account id |
| BucketCacheEntry.BucketClassRoundTrip | B2Lib/Objects/B2BucketCache.cs:26-35 | caching the created record again gives the entry back |
| BucketCacher.Single | B2Lib/Utilities/B2BucketCacher.cs:37-39 | `SingleOrDefault` returns null iff nothing matches and throws iff two or more entries match; otherwise it returns the matching member |
| BucketCacher.GetById | B2Lib/Utilities/B2BucketCacher.cs:28-42 | the public lookup by id returns null on no match, throws on several, and otherwise returns the cached entry with that id; the cache is a value and is not changed |
| BucketCacher.GetByName | B2Lib/Utilities/B2BucketCacher.cs:44-48 | the same as `GetById`, keyed by name |
| BucketCacher.CountAppend | B2Lib/Utilities/B2BucketCacher.cs:22-26 | the number of matches in a concatenation is the sum over the two parts |
| BucketCacher.CountMember | B2Lib/Utilities/B2BucketCacher.cs:37 | a matching entry means at least one match |
| BucketCacher.CountZero | B2Lib/Utilities/B2BucketCacher.cs:37 | no matching entry means a match count of zero |
| BucketCacher.UniqueCountsAtMostOne | B2Lib/Utilities/B2BucketCacher.cs:37 | a cache with unique ids has at most one match per id |
| BucketCacher.UniqueLookupSucceeds | B2Lib/Utilities/B2BucketCacher.cs:37 | on a cache with unique ids, a lookup by id never throws |
| BucketCacher.IndexOf | B2Lib/Utilities/B2BucketCacher.cs:37-39 | the position returned holds a match, and no earlier position does |
| BucketCacher.RecordBucket | B2Lib/Utilities/B2BucketCacher.cs:56-64 | throws iff the id is cached twice; appends an entry (id and name only) when the id is absent; otherwise rewrites the name of that entry in place, keeping its type and account and every other entry |
| BucketCacher.OtherMatchMeansTwo | B2Lib/Utilities/B2BucketCacher.cs:37 | two distinct matching positions mean at least two matches |
| BucketCacher.RecordThenGet | B2Lib/Utilities/B2BucketCacher.cs:58-63 | after recording a bucket, looking its id up finds the recorded entry, with the bucket's id and name |
| BucketCacher.RecordKeepsIdsUnique | B2Lib/Utilities/B2BucketCacher.cs:56-64 | recording into a cache with unique ids succeeds and keeps the ids unique |
| BucketCacher.RecordBuckets | B2Lib/Utilities/B2BucketCacher.cs:50-54 | recording a list makes no remote call and never shrinks the cache |
| BucketCacher.RecordBucketsCachesAll | B2Lib/Utilities/B2BucketCacher.cs:50-54 | after a complete recording, every listed id is cached |
| BucketCacher.RecordBucketsKeepsUnique | B2Lib/Utilities/B2BucketCacher.cs:50-54 | recording a list into a cache with unique ids succeeds and keeps the ids unique |
| BucketCacher.RecordsStayPresent | B2Lib/Utilities/B2BucketCacher.cs:50-54 | recording more buckets never removes an id that is already cached |
| BucketCacher.RecordKeepsId | B2Lib/Utilities/B2BucketCacher.cs:56-64 | one recording never removes an id that is already cached |
| BucketCacher.RemoveBucket | B2Lib/Utilities/B2BucketCacher.cs:66-70 | afterwards no entry has the id; exactly the entries with the id are gone, so the length drops by their count, and every entry with another id is still there |
| BucketCacher.RemoveIsKeep | B2Lib/Utilities/B2BucketCacher.cs:66-70 | the result is the reference filter `Keep` of the cache: exactly the entries with another id, in their order and with their number of copies |
| BucketCacher.RemoveKeepsCopies | B2Lib/Utilities/B2BucketCacher.cs:66-70 | after removal, an entry with the id has no copy left and every other entry has exactly as many copies as before |
| BucketCacher.KeepCons | B2Lib/Utilities/B2BucketCacher.cs:66-70 | the end-first reference filter agrees with filtering the first entry and then the rest |
| BucketCacher.RemoveAbsentIsIdentity | B2Lib/Utilities/B2BucketCacher.cs:66-70 | removing an id that is not cached changes nothing |
| BucketCacher.GetState | B2Lib/Utilities/B2BucketCacher.cs:16-20 | the snapshot has one field-equal copy per entry, in order |
| BucketCacher.LoadState | B2Lib/Utilities/B2BucketCacher.cs:22-26 | the entries are appended after the cache without de-duplication; a null list throws |
| BucketCacher.LoadDuplicateBreaksLookup | B2Lib/Utilities/B2BucketCacher.cs:22-26 | loading an id that is already cached makes a later lookup of that id throw |
| SaveStates.CopyTo | B2Lib/Client/B2SaveState.cs:18-27 | the other object gets the four scalars, then a copy of the entry list; a null list throws after the scalars are set, leaving the other list as it was |
| SaveStates.CopyToMakesEqual | B2Lib/Client/B2SaveState.cs:18-27 | a successful copy leaves the other object equal to the source |
| SaveStates.ToStringReportsCount | B2Lib/Client/B2SaveState.cs:29-32 | the text ends with the cache count, which is empty for a null list and otherwise decimal digits that read back as the number of entries |
| Text.NatToString | B2Lib/Client/B2SaveState.cs:31 | a count renders as at least one decimal digit |
| Text.ParseNatToString | B2Lib/Client/B2SaveState.cs:31 | the rendered count reads back as the count |
| Text.Fold | B2Lib/Objects/B2Uploader.cs:31 | case folding maps every character through the ASCII fold and keeps the length |
| Sessions.RequireAuthorized | B2Lib/Client/B2Client.cs:92-96 | throws the missing-authentication error iff the account id is null or empty |
| Sessions.FetchUploadConfig | B2Lib/Client/B2Client.cs:105-126 | a non-empty bag hands out one of its own credentials with no remote call; an empty bag makes exactly one `GetUploadUrl` call and answers what it returned; a null bucket id throws without a call; only the pool of the session changes |
| Sessions.ReturnUploadConfig | B2Lib/Client/B2Client.cs:98-103 | the credential joins that bucket's bag, the bag being created if missing; a null bucket id throws |
| Sessions.SaveState | B2Lib/Client/B2Client.cs:70-83 | the snapshot holds account, token, both URLs and a copy of the cache |
| Sessions.LoadState | B2Lib/Client/B2Client.cs:52-61 | the scalars are overwritten and the saved entries are appended to the cache; the pool is untouched; a null list throws after the scalars are set |
| Sessions.SaveLoadRoundTrip | B2Lib/Client/B2Client.cs:52-83 | saving a session and loading the snapshot into a new client restores everything except the pool |
| Sessions.LoadTwiceBreaksLookup | B2Lib/Client/B2Client.cs:52-61 | loading the same snapshot twice makes lookups of its ids throw |
| Sessions.Login | B2Lib/Client/B2Client.cs:128-137 | one authorize call; on success, account, token and both URLs come from the response; on failure the session is unchanged |
| Pools.TryTake | B2Lib/Client/B2Client.cs:107-111 | it takes nothing iff the bag is empty; otherwise the rest plus the element taken is the bag |
| Pools.Fetch | B2Lib/Client/B2File.cs:96-108 | a non-empty bag gives up one credential with no call, and the multisets balance; an empty bag makes exactly the one mint call and keeps nothing |
| Pools.Return | B2Lib/Client/B2File.cs:84-87 | the multiset gains exactly the returned credential |
| Pools.ReturnThenFetch | B2Lib/Client/B2File.cs:84-108 | a credential just returned is the next one fetched, with no mint |
| Pools.FetchKeyed | B2Lib/B2Client.cs:322-343 | pops from the bucket's bag or mints exactly once; the bag is created if missing; other buckets' bags are untouched; a null key throws |
| Pools.ReturnKeyed | B2Lib/B2Client.cs:315-320 | adds to that bucket's bag only, creating it if missing |
| Pools.ReturnThenFetchKeyed | B2Lib/B2Client.cs:315-343 | returning then fetching on the same bucket gives the same credential back with no mint |
| HandleClient.GetBuckets | B2Lib/Client/B2Client.cs:139-148 | the guard comes before any call; then one listing, and every listed bucket is recorded in the cache; a failed listing leaves the session unchanged |
| HandleClient.GetBucketsCachesListing | B2Lib/Client/B2Client.cs:139-148 | after a successful listing, every listed id is in the cache |
| HandleClient.CreateBucket | B2Lib/Client/B2Client.cs:150-159 | the guard comes first; one creation call; on success the cache is exactly the old cache with the answered bucket recorded, and the call succeeds iff that record succeeds; a failed record leaves the session unchanged |
| HandleClient.FirstEquals | B2Lib/Client/B2Client.cs:161-168 | returns the first record whose field equals the wanted value; a null field met before a match throws; null iff no record matches |
| HandleClient.Lookup | B2Lib/Client/B2Client.cs:161-177 | a lookup is the guard, then one full listing that is recorded in the cache; a failed listing is passed through; otherwise the result is the first listed bucket whose field equals the wanted value, null when none does, and an error exactly when `FirstEquals` meets a null field first |
| HandleClient.GetBucketByName | B2Lib/Client/B2Client.cs:161-168 | always re-lists; the result is the first listed bucket with that name, or null when none has it, with the null-field error of `FirstEquals` |
| HandleClient.GetBucketById | B2Lib/Client/B2Client.cs:170-177 | always re-lists; the result is the first listed bucket with that id, or null when none has it, with the null-field error of `FirstEquals` |
| HandleClient.LookupAlwaysLists | B2Lib/Client/B2Client.cs:170-177 | even with the id cached, the lookup makes a listing call |
| HandleClient.LookupByNameComplete | B2Lib/Client/B2Client.cs:161-168 | on a listing without null names, the lookup succeeds, and it returns null iff no listed bucket has the name |
| HandleClient.LookupByIdComplete | B2Lib/Client/B2Client.cs:170-177 | on a listing without null ids, the lookup succeeds; it returns the first listed bucket with that id, and null iff no listed bucket has it |
| DirectClient.ListBuckets | B2Lib/B2Client.cs:140-149 | the guard comes before any call; then one listing for the given account, and every listed bucket is recorded |
| DirectClient.FirstMatch | B2Lib/B2Client.cs:98-109 | null-safe `FirstOrDefault`: the first record whose field equals the wanted value, or null iff none does |
| DirectClient.CacheFirst | B2Lib/B2Client.cs:98-122 | a cached entry is answered as its bucket record with no remote call; a miss lists (and records) and returns the first match |
| DirectClient.GetBucketById | B2Lib/B2Client.cs:98-109 | a cache hit makes no call and leaves the session unchanged; a miss on an authorized session makes one listing call; a found bucket has that id |
| DirectClient.GetBucketByName | B2Lib/B2Client.cs:111-122 | the same, keyed by name |
| DirectClient.SecondLookupIsCached | B2Lib/B2Client.cs:98-109 | on a cache with unique ids, a lookup that found a bucket leaves it cached, so asking again makes no remote call |
| DirectClient.CreateBucket | B2Lib/B2Client.cs:156-165 | the guard comes first; one creation call; the result is recorded in the cache |
| DirectClient.DeleteBucket | B2Lib/B2Client.cs:177-186 | the guard comes first; one delete call; the cache becomes the in-order filter `Keep` without the returned bucket's id, so every other entry stays in place |
| DirectClient.UpdateBucket | B2Lib/B2Client.cs:198-207 | the guard comes first; one update call; the result is recorded, which writes only id and name |
| DirectClient.UpdateLeavesCachedTypeStale | B2Lib/B2Client.cs:198-207 | after an update of a cached bucket, a lookup by id is answered from the cache with the old type |
| DirectClient.Guarded | B2Lib/B2Client.cs:92-96 | a guarded file call makes no call iff the account id is null or empty (and then throws); otherwise it makes exactly its one call |
| DirectClient.HideFile | B2Lib/B2Client.cs:224-231 | throws with no call when unauthorized; otherwise makes the one hide call and returns its answer |
| DirectClient.GetFileInfo | B2Lib/B2Client.cs:238-245 | throws with no call when unauthorized; otherwise makes the one info call |
| DirectClient.DeleteFile | B2Lib/B2Client.cs:257-264 | throws with no call when unauthorized; otherwise makes the one delete call |
| DirectClient.DownloadFileContent | B2Lib/B2Client.cs:362-367 | throws with no call when unauthorized; otherwise makes the one download call |
| DirectClient.UploadFile | B2Lib/B2Client.cs:291-313 | fetches a bucket credential, uploads with the file's hex SHA-1, and hands the credential back to that bucket's bag whatever the upload answered |
| DirectClient.UploadReturnsCredential | B2Lib/B2Client.cs:293-312 | after any upload that got a credential, the bag ends as it started, plus the minted credential if one was minted: nothing leaks |
| DirectClient.UploadSendsFortyHex | B2Lib/B2Client.cs:298-300 | the last call of an upload carries a hash of forty upper-case hex characters that decodes back to the SHA-1 of the file's bytes |
| Buckets.NewBucket | B2Lib/Client/B2Bucket.cs:25-31 | a new handle is Present on the given bucket |
| Buckets.ThrowIfNot | B2Lib/Client/B2Bucket.cs:33-37 | throws iff the state differs from the desired one; the error names the bucket, both states and the id |
| Buckets.Delete | B2Lib/Client/B2Bucket.cs:39-50 | Present only, checked before any call; one delete call; then the handle is Deleted with the answer as its snapshot, the cache becomes the in-order filter `Keep` without the bucket's id, and the result is true |
| Buckets.Update | B2Lib/Client/B2Bucket.cs:52-60 | Present only; one update call; the snapshot becomes the answer, the state stays, the cache is not involved |
| Buckets.CreateFile | B2Lib/Client/B2Bucket.cs:62-67 | Present only; no remote call; a New, non-large handle for this bucket and name |
| Buckets.CreateLargeFile | B2Lib/Client/B2Bucket.cs:69-76 | Present only; one start call; the answer as a New large file with an empty part bag |
| Buckets.GetFile | B2Lib/Client/B2Bucket.cs:78-85 | Present only; one info call; the answer as a Present file handle |
| Buckets.GetLargeFile | B2Lib/Client/B2Bucket.cs:87-102 | Present only; one listing of unfinished files starting at the id with page size 1; the first entry as a large file, or a 404 not_found failure when there is none; the id is not checked |
| Buckets.GetLargeFileCanReturnAnotherFile | B2Lib/Client/B2Bucket.cs:91-101 | when the service answers a different unfinished file from that starting point, that file's handle is returned |
| Buckets.GetLargeFileExact | B2Lib/Client/B2Bucket.cs:87-102 | the same request, but it succeeds iff the first entry has exactly the requested id; any handle returned has that id |
| Buckets.GetFiles | B2Lib/Client/B2Bucket.cs:104-109 | Present only; no call; a name listing bound to this bucket and start name |
| Buckets.GetFileVersions | B2Lib/Client/B2Bucket.cs:111-116 | Present only; no call; a version listing bound to this bucket and start pair |
| Buckets.GetUnfinishedLargeFiles | B2Lib/Client/B2Bucket.cs:118-123 | Present only; no call; an unfinished listing bound to this bucket and start id |
| Buckets.HideFile | B2Lib/Client/B2Bucket.cs:125-132 | Present only; one hide call in this bucket; true once it answered |
| Buckets.DeletedBucketRejectsAll | B2Lib/Client/B2Bucket.cs:33-37 | after a delete, every operation throws the state error and contacts nobody |
| Files.InitLargeFile | B2Lib/Client/B2File.cs:78-82 | marks the action as start and creates an empty part bag |
| Files.NewFile | B2Lib/Client/B2File.cs:63-76 | New, the given name and bucket, content type b2/x-auto; action start and a part bag iff large |
| Files.FromInfo | B2Lib/Client/B2File.cs:52-61 | Present with the snapshot as given; a part bag iff the action is start |
| Files.FromUnfinished | B2Lib/Client/B2File.cs:34-50 | Present, a large file, and the listing entry's shared fields |
| Files.ThrowIfNot | B2Lib/Client/B2File.cs:110-114 | throws iff the state differs from the desired one; the error names the file, both states and the id |
| Files.ThrowIfLargeFile | B2Lib/Client/B2File.cs:116-122 | throws iff being a large file differs from what the operation requires |
| Files.SetUploadContentType | B2Lib/Client/B2File.cs:124-131 | New only; sets the content type and nothing else |
| Files.SetUploadSha1 | B2Lib/Client/B2File.cs:133-140 | New only; sets the expected hash and nothing else |
| Files.SetUploadFileInfo | B2Lib/Client/B2File.cs:142-152 | New only; creates the map on first use, then stores the value under the key, keeping every other key; a null key throws |
| Files.SetInfoOverwrites | B2Lib/Client/B2File.cs:142-152 | setting a key twice keeps only the later value |
| Files.UploadChecked | B2Lib/Client/B2File.cs:192-214 | New and non-large are checked before any call; success means the echoed hash equalled the expected one, the snapshot became the answer and the state Present; the session changes only in its pool; at most two calls |
| Files.UploadData | B2Lib/Client/B2File.cs:192-214 | a successful upload is Present with the expected hash set before it |
| Files.UploadFileData | B2Lib/Client/B2File.cs:159-190 | a successful upload echoed the forty-character hex SHA-1 of the file's bytes |
| Files.MismatchLeavesHandle | B2Lib/Client/B2File.cs:202-211 | a hash mismatch throws, leaves the handle as it was and still returns the credential to the bag |
| Files.UploadReturnsCredential | B2Lib/Client/B2File.cs:184-187 | whatever the service answered, the credential that was fetched goes back to the bag of the file's bucket |
| Files.StartLargeFile | B2Lib/Client/B2File.cs:216-227 | New and large only, checked before any call; one start call; the snapshot becomes the answer and the state Present |
| Files.UploadPartWith | B2Lib/Client/B2File.cs:229-250 | reuses the last pooled part credential, or mints exactly one; the part upload succeeds iff the service accepts it and echoes the hash; the credential goes back either way |
| Files.PartCredentialIsReused | B2Lib/Client/B2File.cs:84-108 | after one part upload obtained a credential, the next one makes a single upload call and no mint |
| Files.UploadLargeFilePart | B2Lib/Client/B2File.cs:229-250 | a large file only (with no state guard); a missing bag throws; the snapshot and state are kept |
| Files.FinalizeLargeFile | B2Lib/Client/B2File.cs:259-270 | a large file only; one finish call; the snapshot becomes the answer and the state is kept |
| Files.FinalizeFromParts | B2Lib/Client/B2File.cs:252-257 | lists every part from part 1, then finishes with the hashes sorted by part number |
| Files.FinalizeListsBeforeGuard | B2Lib/Client/B2File.cs:252-257 | the listing reaches the service even for a handle that is not a large file, and then the guard throws |
| Files.DownloadData | B2Lib/Client/B2File.cs:272-282 | Present and an uploaded file only, checked before any call; then one download |
| Files.Refresh | B2Lib/Client/B2File.cs:297-304 | in any state, the snapshot becomes the service's current one; a failure is rethrown wrapped and changes nothing |
| Files.Delete | B2Lib/Client/B2File.cs:306-314 | Present only; one delete by name and id; Deleted once the service answered |
| Files.DeletedIsFinal | B2Lib/Client/B2File.cs:110-114 | a deleted handle refuses deleting, downloading, uploading and starting, with no remote call |
| Files.UploadThenDownload | B2Lib/Client/B2File.cs:192-314 | a new file that uploaded is Present, can be downloaded, and a successful delete makes it Deleted |
| LargeFiles.FromUnfinished | B2Lib/Client/B2LargeFile.cs:29-35 | the state is its default, New, with the entry as given and an empty part bag |
| LargeFiles.UnfinishedOf | B2Lib/Utilities/B2FileVersionsIterator.cs:38-39 | a version entry seen as a large file keeps every shared field |
| LargeFiles.ThrowIfNot | B2Lib/Client/B2LargeFile.cs:37-41 | throws iff the state differs from the desired one; the error names the file, both states and the id |
| LargeFiles.UploadPart | B2Lib/Client/B2LargeFile.cs:76-93 | New only, checked before a credential is fetched; then the part upload with the file's own bag |
| LargeFiles.Finish | B2Lib/Client/B2LargeFile.cs:106-114 | no state guard; one finish call; on success Finished, and the answer comes back as a Present file |
| LargeFiles.FinishAcceptHashes | B2Lib/Client/B2LargeFile.cs:95-104 | New only; lists every part from 1, then finishes with the listed hashes ordered by part number |
| LargeFiles.FinishSendsListedHashes | B2Lib/Client/B2LargeFile.cs:97-103 | the finishing call carries exactly the listed parts' hashes, in ascending part order |
| LargeFiles.FinishedRefusesUploads | B2Lib/Client/B2LargeFile.cs:37-41 | once finished, part uploads and a second hash-accepting finish throw with no remote call |
| Uploaders.NewUploader | B2Lib/Objects/B2Uploader.cs:27-32 | the given bucket id, content type b2/x-auto, an empty info map, nothing else set |
| Uploaders.Find | B2Lib/Objects/B2Uploader.cs:31 | finds the first key equal ignoring case, or reports that none is |
| Uploaders.FindSameKeys | B2Lib/Objects/B2Uploader.cs:31 | tables with the same keys in the same places find every key in the same place |
| Uploaders.FindAppend | B2Lib/Objects/B2Uploader.cs:31 | appending an entry only adds a match for keys that were not there before |
| Uploaders.Put | B2Lib/Objects/B2Uploader.cs:34-39 | afterwards the key reads the value; every key that differs ignoring case reads as before; a new entry is added only when the key was absent |
| Uploaders.SetInfo | B2Lib/Objects/B2Uploader.cs:34-39 | stores or overwrites the value case-insensitively, changing nothing else; a null key throws |
| Uploaders.SetInfoIgnoresCase | B2Lib/Objects/B2Uploader.cs:34-39 | setting "A" then "a" leaves one entry, under "A", holding the later value |
| Uploaders.SetExpectedSha1Text | B2Lib/Objects/B2Uploader.cs:41-46 | sets the hash and nothing else |
| Uploaders.SetExpectedSha1 | B2Lib/Objects/B2Uploader.cs:48-51 | the hash becomes upper-case hex, two characters per byte, with no separators, and it decodes back to the digest |
| Uploaders.SetInput | B2Lib/Objects/B2Uploader.cs:53-58 | sets the input and nothing else |
| Uploaders.SetFileName | B2Lib/Objects/B2Uploader.cs:73-78 | sets the file name and nothing else |
| Uploaders.SetNotificationAction | B2Lib/Objects/B2Uploader.cs:80-85 | sets the delegate and nothing else |
| Uploaders.SetContentType | B2Lib/Objects/B2Uploader.cs:87-92 | sets the content type and nothing else |
| Uploaders.CalculateSha1FromInput | B2Lib/Objects/B2Uploader.cs:60-71 | the hash becomes the forty-character hex SHA-1 of the input's bytes; with no input it throws |
| Hex.HexDigit | B2Lib/Objects/B2Uploader.cs:50 | a nibble renders as an upper-case hex character |
| Hex.RemoveDashesAppend | B2Lib/Objects/B2Uploader.cs:50 | removing dashes distributes over concatenation |
| Hex.HexPairHasNoDash | B2Lib/Objects/B2Uploader.cs:50 | a byte pair has no dash |
| Hex.DashedThenStripped | B2Lib/Objects/B2Uploader.cs:50 | removing the dashes from `BitConverter.ToString` leaves the byte pairs, concatenated |
| Hex.HexConcatShape | B2Lib/Objects/B2Uploader.cs:50 | two hex characters per byte |
| Hex.HexPairDecodes | B2Lib/Objects/B2Uploader.cs:50 | each character of a pair reads back as its nibble |
| Hex.DecodeConcat | B2Lib/Objects/B2Uploader.cs:50 | the dash-free rendering decodes back to the bytes |
| Hex.Sha1Hex | B2Lib/Objects/B2Uploader.cs:48-51 | upper-case hex, two characters per byte, decodable back to the bytes |
| Hex.DigestRendersToForty | B2Lib/B2Communicator.cs:229 | a twenty-byte digest renders to exactly the forty characters the upload pre-check demands |
| Communicator.TimeoutFor | B2Lib/B2Communicator.cs:35-42 | a client gets the data timeout iff it is built for a data request, and the metadata timeout otherwise |
| Communicator.DefaultTimeoutsByKind | B2Lib/B2Communicator.cs:29-33 | the defaults are 1 minute for metadata and 30 minutes for data |
| Communicator.ErrorFor | B2Lib/B2Communicator.cs:44-53 | any status but 200 becomes a `B2Exception` carrying the status and the error code |
| Communicator.ApiRequest | B2Lib/B2Communicator.cs:55-76 | without a token the request throws an argument error before sending; otherwise it succeeds iff the status is 200 |
| Communicator.NoTokenNoExchange | B2Lib/B2Communicator.cs:57-58 | without a token, the outcome does not depend on any answer, because nothing is sent |
| Communicator.DeleteFile | B2Lib/B2Communicator.cs:162-167 | returns true whenever it returns normally |
| Communicator.UploadPreCheck | B2Lib/B2Communicator.cs:226-236 | checks the stream, then a non-empty forty-character hash, then the file name, then the content type; the first failure is thrown |
| Communicator.BuiltUploaderPasses | B2Lib/B2Communicator.cs:226-236 | a builder given an input, a name and a digest passes every pre-check |
| Communicator.MissingHashIsRejected | B2Lib/B2Communicator.cs:229-230 | a builder with an input and no hash fails on the hash |
| Communicator.InfoHeader | B2Lib/B2Communicator.cs:246-247 | the header name is "X-Bz-Info-" plus the key, and the value is URL-encoded |
| Communicator.InfoHeaders | B2Lib/B2Communicator.cs:246-247 | one header per info entry, in order |
| Communicator.InfoHeadersArePrefixed | B2Lib/B2Communicator.cs:246-247 | every header of an entry is the prefixed key |
| Communicator.ExtractSnoc | B2Lib/B2Communicator.cs:380-386 | a further header changes the extracted info only when it has the prefix |
| Communicator.ExtractIgnoresOthers | B2Lib/B2Communicator.cs:380-386 | headers without the prefix contribute nothing |
| Communicator.KeysOfSnoc | B2Lib/B2Communicator.cs:380-386 | the keys of a table with one more entry are the old keys plus its key |
| Communicator.InfoRoundTrip | B2Lib/B2Communicator.cs:246-247 | reading back the headers of a table with distinct keys gives exactly its keys, each with its URL-encoded value, which is not decoded |
| Communicator.InfoStep | B2Lib/B2Communicator.cs:380-386 | the inductive step: one more entry with a fresh key |
| Communicator.UploaderInfoRoundTrip | B2Lib/B2Communicator.cs:246-247 | an uploader's case-unique info table comes back whole from its headers |
| Communicator.ContentTypeOrDefault | B2Lib/B2Communicator.cs:299 | a null content type becomes b2/x-auto; any other, including an empty one, is kept |
| UrlEncoding.Utf8 | B2Lib/B2Communicator.cs:247 | a character encodes to one to four bytes, and to one byte (its code) iff it is ASCII |
| UrlEncoding.EncodeByte | B2Lib/B2Communicator.cs:247 | a byte encodes to one or three characters |
| UrlEncoding.EncodeBytesAlphabet | B2Lib/B2Communicator.cs:247 | encoded bytes use only safe characters, `+`, `%` and hex digits |
| UrlEncoding.UrlEncodeAlphabet | B2Lib/B2Communicator.cs:247 | an encoded value uses only safe characters, `+`, `%` and hex digits |
| UrlEncoding.DecodeOneAscii | B2Lib/B2Communicator.cs:247 | one ASCII character decodes back, whatever follows it |
| UrlEncoding.AsciiRoundTrip | B2Lib/B2Communicator.cs:247 | for ASCII text, decoding undoes the encoding |
| UrlEncoding.EncodeAsciiChar | B2Lib/B2Communicator.cs:247 | encoding an ASCII character is encoding its byte |
| UrlEncoding.EncodeExample | B2Lib/B2Communicator.cs:242 | "a b/c" encodes as "a+b%2Fc" |
| DateConversion.AddMilliseconds | B2Lib/Utilities/UnixDateTimeConverter.cs:42-44 | the instant is the epoch plus the milliseconds; outside the date range it throws ArgumentOutOfRange |
| DateConversion.ReadJsonFrom | B2Lib/Utilities/UnixDateTimeConverter.cs:31-57 | an integer token is milliseconds after the epoch, as a UTC date or as an offset value at +0; a date token is returned as is for a `DateTime` target and wrapped otherwise; any other token throws |
| DateConversion.ReadJson | B2Lib/Utilities/UnixDateTimeConverter.cs:11-44 | as written, an integer token read as a `DateTime` is 1970-01-01T00:01:01Z plus the milliseconds, in UTC, and fails outside the date range |
| DateConversion.UploadTimestampDate | B2Lib/Objects/B2FileBase.cs:13 | the file's timestamp reads as the Unix epoch plus the milliseconds |
| DateConversion.ConverterEpochIsLate | B2Lib/Utilities/UnixDateTimeConverter.cs:11 | the converter reads every timestamp 61 seconds later than the file's own property does |
| DateConversion.ReadJsonUnix | B2Lib/Utilities/UnixDateTimeConverter.cs:31-57 | with the Unix epoch, an integer token read as a `DateTime` is 1970-01-01T00:00:00Z plus the milliseconds, in UTC |
| DateConversion.UnixReadAgreesWithTimestamp | B2Lib/Objects/B2FileBase.cs:13 | with the Unix epoch, the converter and the file's timestamp property agree on every input |
| DateConversion.ToUniversalTime | B2Lib/Utilities/UnixDateTimeConverter.cs:17 | the result is UTC at the same instant, clamped to the date range |
| DateConversion.WriteJson | B2Lib/Utilities/UnixDateTimeConverter.cs:13-29 | an offset value, and a `DateTime` within the date range, are written as their UTC instant; any other value throws a serialization error |
| DateConversion.WriteThenReadKeepsInstant | B2Lib.Tests/UtilityTests.cs:17-26 | writing an offset value and reading it back through the date-token path keeps the UTC instant |

## Left out

- HTTP transport and JSON (de)serialisation: every endpoint is a total function of `Remote.Backend`, answering a value or an `Error`. Request URLs, headers other than the info headers, and response parsing are not modelled.
- SHA-1 computation and stream seeking: the digest is a function parameter from bytes to twenty bytes. A stream is an opaque handle.
- Concurrency: `ConcurrentBag`, `ConcurrentDictionary`, `lock` and `KeyLocker` are modelled by their single-threaded behaviour. A bag hands back the credential added last, and the contracts also state the multiset view. Races between callers are not modelled.
- Async and blocking: `await` is sequential composition. `.Result` on a failed task gives `Aggregate(inner)`. Where the source awaits, the service's error is passed through unwrapped.
- File I/O: `SaveState(string)`/`LoadState(string)` and reading a local file for `UploadFileAsync`. The file's bytes are a parameter.
- Progress reporting: `SetNotificationAction` records only whether a delegate is set, and the progress handler of the builder upload is not modelled.
- `B2Client.ListFiles`, `ListFileVersions` and `DownloadFileHeadAsync` of the record-returning client: they only construct an iterator or call the transport. The iterators themselves are modelled.
- The ranged download of `B2File` throws `NotImplementedException` and is not modelled.
- The builder upload's HTTP message and `HandleErrorResponse`'s parsing of the error body are not modelled. `Communicator.ErrorFor` takes the parsed status, code and message.
- Download info extraction takes the first value of each header. Multi-valued headers are not modelled.
- DateConversion.ReadJsonFrom: the floating-point token branch and the ISO-8601 "o" text of `WriteJson` are not modelled, so `Written` carries the instant, not the text. The machine's time zone is a single fixed offset parameter.
- Text.Fold: folds only ASCII letters, while `InvariantCultureIgnoreCase` also folds other scripts.
- UrlEncoding.AsciiRoundTrip: the round trip is proved for ASCII text only. Multi-byte characters are encoded but not decoded. Strings are sequences of Unicode scalar values, so lone UTF-16 surrogates, which .NET encodes as U+FFFD, cannot be represented and are not modelled.
- Paging.Enumerate: a page bound (`fuel`) stands in for the source's unbounded loop. A listing still going at the bound ends with `Pending`, which `PartsIterator.AllParts` reports as `Unfinished`.
- Sessions.LoadState: a null `B2SaveState` is not modelled; only a null entry list is.
- Uploaders.SetExpectedSha1: a null byte array (which throws in `BitConverter`) is not modelled. The digest is a sequence.
- Uploaders.SetInfo: values are non-null strings; a null info value is not modelled.
- Files.UploadChecked: the 32-bit limits of part numbers and lengths are not modelled, because they are only passed through.
- `BucketCacheEntry.ToString` and `SaveStates.ToString` are modelled as functions. The second is described by `SaveStates.ToStringReportsCount`. The first is the bucket name and has no contract of its own.
- `CanConvert` of the converter is the predicate `DateConversion.CanConvert`. It has no contract of its own.
- B2Lib.SyncExtensions, B2Powershell and TestApplication are thin wrappers or hosts and are outside the core.
- Source revisions that do not fit together:
  - `B2FilesIterator` passes an API URL to a base constructor that takes none, and overrides a `PreProcessItem` the base class does not declare. The model follows what `GetNextPage` does.
  - `B2UnfinishedLargeFilesIterator` yields `B2File` while `GetLargeFileAsync` takes `B2LargeFile` from it, so the unfinished listing is generic in its wrapper.
  - The versions listing builds a `B2LargeFile` from a `B2FileInfo`. `LargeFiles.UnfinishedOf` gives the fields it shares.
  - The three-argument `B2File` constructor used by `CreateFile` is taken to be the new-file constructor with `isLargeFile` false.
  - `B2LargeFile.State` is never assigned, so it starts at the enumeration's default, New.
  - A freshly built `B2FileInfo` has the action's default value, taken to be `Upload`.
- Null arguments to .NET collections: a null bucket id in a pool gives `ArgumentNull("key")`, `ToList(null)` gives `ArgumentNull("source")`, and `AddRange(null)` gives `ArgumentNull("collection")`.
- BucketCacher.LoadState, BucketCacher.RecordBucket, SaveStates.CopyTo: cache entries are modelled as values. In the source, `AddRange` and the shallow `ToList()` share entry objects between the cacher, a `B2SaveState` and its copies, `RecordBucket` renames the shared entry in place, and `GetById`/`GetByName` hand out the live entry. A rename through the cacher therefore also shows in every snapshot holding that entry. This cross-object aliasing is not modelled.
- `FinalizeLargeFileAsync()` lists the parts before the large-file guard runs, because the hash list is an argument of the guarded overload. The model keeps that order.

## Findings

| source | as written | input that shows it | evidently intended | confidence | as-written member | corrected member |
|---|---|---|---|---|---|---|
| B2Lib/Client/B2Bucket.cs:87-102 | `GetLargeFileAsync(fileId)` lists unfinished large files starting at `fileId` with page size 1 and returns the first entry, without checking its id | a `fileId` "4_za" that is no longer unfinished, while "4_zb" follows it: the listing from "4_za" answers "4_zb", and a handle on "4_zb" is returned | return the file only when the entry's id equals `fileId`, and otherwise fail with not_found | medium, not executed | Buckets.GetLargeFile, Buckets.GetLargeFileCanReturnAnotherFile | Buckets.GetLargeFileExact |
| B2Lib/Utilities/UnixDateTimeConverter.cs:11 | the converter's epoch is 1970-01-01 00:01:01 UTC | the integer timestamp 0 reads as 1970-01-01T00:01:01Z, while `UploadTimestampDate` (B2Lib/Objects/B2FileBase.cs:13) reads the same 0 as 1970-01-01T00:00:00Z | the Unix epoch 1970-01-01T00:00:00Z, so both readings agree | high, not executed | DateConversion.ReadJson, DateConversion.ConverterEpochIsLate | DateConversion.ReadJsonUnix, DateConversion.UnixReadAgreesWithTimestamp |
