/**
 * The record-returning `B2Client`: cache-first bucket lookups, bucket and file
 * calls behind the auth guard, and the simple file upload with the pooled
 * bucket credential.
 */
module DirectClient {
  import opened Wrappers
  import opened Text
  import opened Objects
  import opened Remote
  import Hex
  import BucketCacher
  import BucketCacheEntry
  import Pools
  import opened Sessions

  /** `ListBucketsAsync(accountId)`: the auth guard, one listing, then every bucket is recorded. */
  function ListBuckets(s: Session, accountId: NString, backend: Backend): (r: Outcome<Session, seq<BucketObject>>)
    ensures RequireAuthorized(s).Some? ==> r == Outcome(s, Err(RequireAuthorized(s).value), [])
    ensures RequireAuthorized(s).None? ==> r.calls == [Call.ListBuckets(accountId)]
    ensures r.state == s.(cache := r.state.cache)
    ensures r.result.Ok? ==> backend.listBuckets(accountId) == Ok(r.result.value)
    ensures r.result.Ok? ==> r.state.cache == BucketCacher.RecordBuckets(s.cache, r.result.value).state
  {
    if RequireAuthorized(s).Some? then Outcome(s, Err(RequireAuthorized(s).value), [])
    else
      var call := Call.ListBuckets(accountId);
      match backend.listBuckets(accountId)
      case Err(e) => Outcome(s, Err(e), [call])
      case Ok(buckets) =>
        var rec := BucketCacher.RecordBuckets(s.cache, buckets);
        if rec.result.Err? then Outcome(s.(cache := rec.state), Err(rec.result.error), [call])
        else Outcome(s.(cache := rec.state), Ok(buckets), [call])
  }

  /** `FirstOrDefault(s => field(s) == want)`: string `==`, which is null-safe. */
  function FirstMatch(buckets: seq<BucketObject>, field: BucketObject -> NString, want: NString): (r: Option<BucketObject>)
    ensures r.Some? ==> exists i :: (0 <= i < |buckets| && buckets[i] == r.value && field(buckets[i]) == want
      && forall j :: 0 <= j < i ==> field(buckets[j]) != want)
    ensures r.None? <==> forall j :: 0 <= j < |buckets| ==> field(buckets[j]) != want
    decreases |buckets|
  {
    if |buckets| == 0 then None
    else if field(buckets[0]) == want then Some(buckets[0])
    else
      assert forall j :: 1 <= j < |buckets| ==> buckets[j] == buckets[1..][j - 1];
      FirstMatch(buckets[1..], field, want)
  }

  function IdOf(b: BucketObject): NString { b.bucketId }

  function NameOf(b: BucketObject): NString { b.bucketName }

  /**
   * A cache-first lookup: a cached entry is turned into a bucket record with no
   * remote call; otherwise the buckets are listed (and recorded) and the first one
   * whose field equals `want` is returned, or null.
   */
  function CacheFirst(s: Session, cached: Result<Option<BucketCache>, Error>, field: BucketObject -> NString, want: NString, backend: Backend): (r: Outcome<Session, Option<BucketObject>>)
    ensures cached.Err? ==> r == Outcome(s, Err(cached.error), [])
    ensures cached.Ok? && cached.value.Some? ==>
      r == Outcome(s, Ok(Some(BucketCacheEntry.CreateBucketClass(cached.value.value))), [])
    ensures cached == Ok(None) ==>
      r.calls == ListBuckets(s, s.accountId, backend).calls && r.state == ListBuckets(s, s.accountId, backend).state
    ensures cached == Ok(None) && r.result.Ok? ==>
      ListBuckets(s, s.accountId, backend).result.Ok?
      && r.result.value == FirstMatch(ListBuckets(s, s.accountId, backend).result.value, field, want)
  {
    match cached
    case Err(e) => Outcome(s, Err(e), [])
    case Ok(Some(c)) => Outcome(s, Ok(Some(BucketCacheEntry.CreateBucketClass(c))), [])
    case Ok(None) =>
      var listed := ListBuckets(s, s.accountId, backend);
      if listed.result.Err? then Outcome(listed.state, Err(listed.result.error), listed.calls)
      else Outcome(listed.state, Ok(FirstMatch(listed.result.value, field, want)), listed.calls)
  }

  /** `GetBucketByIdAsync`: no auth guard before the cache; a miss lists the buckets. */
  function GetBucketById(s: Session, id: NString, backend: Backend): (r: Outcome<Session, Option<BucketObject>>)
    ensures BucketCacher.Count(s.cache, BucketCacher.ById(id)) == 1 ==> r.calls == [] && r.state == s
    ensures r.result.Ok? && r.result.value.Some? ==> r.result.value.value.bucketId == id
    ensures BucketCacher.Count(s.cache, BucketCacher.ById(id)) == 0 && RequireAuthorized(s).None? ==>
      r.calls == [Call.ListBuckets(s.accountId)]
  {
    var r := CacheFirst(s, BucketCacher.GetById(s.cache, id), IdOf, id, backend);
    assert r.result.Ok? && r.result.value.Some? ==> IdOf(r.result.value.value) == id;
    r
  }

  /** `GetBucketByNameAsync`: the same, keyed by name. */
  function GetBucketByName(s: Session, name: NString, backend: Backend): (r: Outcome<Session, Option<BucketObject>>)
    ensures BucketCacher.Count(s.cache, BucketCacher.ByName(name)) == 1 ==> r.calls == [] && r.state == s
    ensures r.result.Ok? && r.result.value.Some? ==> r.result.value.value.bucketName == name
    ensures BucketCacher.Count(s.cache, BucketCacher.ByName(name)) == 0 && RequireAuthorized(s).None? ==>
      r.calls == [Call.ListBuckets(s.accountId)]
  {
    var r := CacheFirst(s, BucketCacher.GetByName(s.cache, name), NameOf, name, backend);
    assert r.result.Ok? && r.result.value.Some? ==> NameOf(r.result.value.value) == name;
    r
  }

  /**
   * A lookup that had to list the buckets leaves the found bucket cached: on a
   * cache free of duplicate ids, asking again is answered with no remote call.
   */
  lemma SecondLookupIsCached(s: Session, id: NString, backend: Backend)
    requires BucketCacher.UniqueIds(s.cache)
    requires GetBucketById(s, id, backend).result.Ok? && GetBucketById(s, id, backend).result.value.Some?
    ensures var s' := GetBucketById(s, id, backend).state;
      && GetBucketById(s', id, backend).calls == []
      && GetBucketById(s', id, backend).result.Ok?
      && GetBucketById(s', id, backend).result.value.Some?
  {
    var first := GetBucketById(s, id, backend);
    var k := BucketCacher.ById(id);
    BucketCacher.UniqueCountsAtMostOne(s.cache, id);
    if BucketCacher.Count(s.cache, k) == 0 {
      var listed := ListBuckets(s, s.accountId, backend);
      var bs := listed.result.value;
      BucketCacher.RecordBucketsKeepsUnique(s.cache, bs);
      BucketCacher.RecordBucketsCachesAll(s.cache, bs);
      var i :| 0 <= i < |bs| && bs[i] == first.result.value.value && IdOf(bs[i]) == id
        && forall j :: 0 <= j < i ==> IdOf(bs[j]) != id;
      BucketCacher.UniqueCountsAtMostOne(first.state.cache, id);
    } else {
      var c := BucketCacher.GetById(s.cache, id).value.value;
    }
  }

  /** `CreateBucketAsync(accountId, name, type)`: the guard, one call, then the bucket is recorded. */
  function CreateBucket(s: Session, accountId: NString, name: NString, bucketType: BucketType, backend: Backend): (r: Outcome<Session, BucketObject>)
    ensures RequireAuthorized(s).Some? ==> r == Outcome(s, Err(RequireAuthorized(s).value), [])
    ensures RequireAuthorized(s).None? ==> r.calls == [Call.CreateBucket(accountId, name, bucketType)]
    ensures r.state == s.(cache := r.state.cache)
    ensures r.result.Ok? ==> backend.createBucket(accountId, name, bucketType) == Ok(r.result.value)
    ensures r.result.Ok? ==> BucketCacher.RecordBucket(s.cache, r.result.value).Ok?
    ensures r.result.Ok? ==> r.state.cache == BucketCacher.RecordBucket(s.cache, r.result.value).value.0
  {
    if RequireAuthorized(s).Some? then Outcome(s, Err(RequireAuthorized(s).value), [])
    else
      var call := Call.CreateBucket(accountId, name, bucketType);
      match backend.createBucket(accountId, name, bucketType)
      case Err(e) => Outcome(s, Err(e), [call])
      case Ok(b) =>
        match BucketCacher.RecordBucket(s.cache, b)
        case Err(e) => Outcome(s, Err(e), [call])
        case Ok((cache', _)) => Outcome(s.(cache := cache'), Ok(b), [call])
  }

  /** `DeleteBucketAsync(accountId, bucketId)`: the guard, one call, then the returned bucket's id is evicted. */
  function DeleteBucket(s: Session, accountId: NString, bucketId: NString, backend: Backend): (r: Outcome<Session, BucketObject>)
    ensures RequireAuthorized(s).Some? ==> r == Outcome(s, Err(RequireAuthorized(s).value), [])
    ensures RequireAuthorized(s).None? ==> r.calls == [Call.DeleteBucket(accountId, bucketId)]
    ensures r.state == s.(cache := r.state.cache)
    ensures r.result.Err? ==> r.state == s
    ensures r.result.Ok? ==> backend.deleteBucket(accountId, bucketId) == Ok(r.result.value)
    ensures r.result.Ok? ==> BucketCacher.GetById(r.state.cache, r.result.value.bucketId) == Ok(None)
    ensures r.result.Ok? ==> forall c :: c in r.state.cache <==> c in s.cache && c.bucketId != r.result.value.bucketId
    ensures r.result.Ok? ==> r.state.cache == BucketCacher.Keep(s.cache, r.result.value.bucketId)
  {
    if RequireAuthorized(s).Some? then Outcome(s, Err(RequireAuthorized(s).value), [])
    else
      var call := Call.DeleteBucket(accountId, bucketId);
      match backend.deleteBucket(accountId, bucketId)
      case Err(e) => Outcome(s, Err(e), [call])
      case Ok(b) =>
        BucketCacher.RemoveIsKeep(s.cache, b);
        Outcome(s.(cache := BucketCacher.RemoveBucket(s.cache, b)), Ok(b), [call])
  }

  /**
   * `UpdateBucketAsync(accountId, bucketId, type)`: the guard, one call, then the
   * returned bucket is recorded, which writes only its id and name.
   */
  function UpdateBucket(s: Session, accountId: NString, bucketId: NString, bucketType: BucketType, backend: Backend): (r: Outcome<Session, BucketObject>)
    ensures RequireAuthorized(s).Some? ==> r == Outcome(s, Err(RequireAuthorized(s).value), [])
    ensures RequireAuthorized(s).None? ==> r.calls == [Call.UpdateBucket(accountId, bucketId, bucketType)]
    ensures r.state == s.(cache := r.state.cache)
    ensures r.result.Ok? ==> backend.updateBucket(accountId, bucketId, bucketType) == Ok(r.result.value)
    ensures r.result.Ok? ==> BucketCacher.RecordBucket(s.cache, r.result.value).Ok?
    ensures r.result.Ok? ==> r.state.cache == BucketCacher.RecordBucket(s.cache, r.result.value).value.0
  {
    if RequireAuthorized(s).Some? then Outcome(s, Err(RequireAuthorized(s).value), [])
    else
      var call := Call.UpdateBucket(accountId, bucketId, bucketType);
      match backend.updateBucket(accountId, bucketId, bucketType)
      case Err(e) => Outcome(s, Err(e), [call])
      case Ok(b) =>
        match BucketCacher.RecordBucket(s.cache, b)
        case Err(e) => Outcome(s, Err(e), [call])
        case Ok((cache', _)) => Outcome(s.(cache := cache'), Ok(b), [call])
  }

  /**
   * The cache keeps the type it had: after an update that changed a cached
   * bucket's type, a lookup by id is answered from the cache with the old type.
   */
  lemma UpdateLeavesCachedTypeStale(s: Session, accountId: NString, bucketId: NString, t: BucketType, backend: Backend)
    requires BucketCacher.UniqueIds(s.cache)
    requires UpdateBucket(s, accountId, bucketId, t, backend).result.Ok?
    requires var b := UpdateBucket(s, accountId, bucketId, t, backend).result.value;
      BucketCacher.GetById(s.cache, b.bucketId).value.Some?
    ensures var u := UpdateBucket(s, accountId, bucketId, t, backend);
      var before := BucketCacher.GetById(s.cache, u.result.value.bucketId).value.value;
      && GetBucketById(u.state, u.result.value.bucketId, backend).calls == []
      && GetBucketById(u.state, u.result.value.bucketId, backend).result.Ok?
      && GetBucketById(u.state, u.result.value.bucketId, backend).result.value.Some?
      && GetBucketById(u.state, u.result.value.bucketId, backend).result.value.value.bucketType == before.bucketType
  {
    var u := UpdateBucket(s, accountId, bucketId, t, backend);
    var b := u.result.value;
    BucketCacher.UniqueLookupSucceeds(s.cache, b.bucketId);
    BucketCacher.RecordThenGet(s.cache, b);
    var before := BucketCacher.GetById(s.cache, b.bucketId).value.value;
    var i :| 0 <= i < |s.cache| && s.cache[i] == before;
    var item := BucketCacher.RecordBucket(s.cache, b).value.1;
    var j := BucketCacher.IndexOf(s.cache, BucketCacher.ById(b.bucketId));
    assert u.state.cache[j] == before.(bucketName := b.bucketName);
    assert item == u.state.cache[j];
  }

  /**
   * A file call behind the auth guard: the guard throws with no remote call,
   * otherwise exactly the one call is made and its answer returned.
   */
  function Guarded<T>(s: Session, call: Call, answer: Result<T, Error>): (r: Outcome<Session, T>)
    ensures r.state == s
    ensures IsNullOrEmpty(s.accountId) <==> r.calls == []
    ensures IsNullOrEmpty(s.accountId) ==> r.result == Err(NotAuthorized)
    ensures !IsNullOrEmpty(s.accountId) ==> r.calls == [call] && r.result == answer
  {
    if RequireAuthorized(s).Some? then Outcome(s, Err(RequireAuthorized(s).value), [])
    else Outcome(s, answer, [call])
  }

  /** `HideFileAsync(bucketId, fileName)`. */
  function HideFile(s: Session, bucketId: NString, fileName: NString, backend: Backend): (r: Outcome<Session, FileInfo>)
    ensures IsNullOrEmpty(s.accountId) ==> r == Outcome(s, Err(NotAuthorized), [])
    ensures !IsNullOrEmpty(s.accountId) ==> r == Outcome(s, backend.hideFile(bucketId, fileName), [Call.HideFile(bucketId, fileName)])
  {
    Guarded(s, Call.HideFile(bucketId, fileName), backend.hideFile(bucketId, fileName))
  }

  /** `GetFileInfoAsync(fileId)`. */
  function GetFileInfo(s: Session, fileId: NString, backend: Backend): (r: Outcome<Session, FileInfo>)
    ensures IsNullOrEmpty(s.accountId) ==> r == Outcome(s, Err(NotAuthorized), [])
    ensures !IsNullOrEmpty(s.accountId) ==> r == Outcome(s, backend.getFileInfo(fileId), [Call.GetFileInfo(fileId)])
  {
    Guarded(s, Call.GetFileInfo(fileId), backend.getFileInfo(fileId))
  }

  /** `DeleteFileAsync(fileName, fileId)`. */
  function DeleteFile(s: Session, fileName: NString, fileId: NString, backend: Backend): (r: Outcome<Session, bool>)
    ensures IsNullOrEmpty(s.accountId) ==> r == Outcome(s, Err(NotAuthorized), [])
    ensures !IsNullOrEmpty(s.accountId) ==> r == Outcome(s, backend.deleteFile(fileName, fileId), [Call.DeleteFile(fileName, fileId)])
  {
    Guarded(s, Call.DeleteFile(fileName, fileId), backend.deleteFile(fileName, fileId))
  }

  /** `DownloadFileContentAsync(fileId)`. */
  function DownloadFileContent(s: Session, fileId: NString, backend: Backend): (r: Outcome<Session, Stream>)
    ensures IsNullOrEmpty(s.accountId) ==> r == Outcome(s, Err(NotAuthorized), [])
    ensures !IsNullOrEmpty(s.accountId) ==> r == Outcome(s, backend.download(fileId), [Download(fileId)])
  {
    Guarded(s, Download(fileId), backend.download(fileId))
  }

  /**
   * `UploadFileAsync(bucketId, file, fileName, fileInfo, contentType)`: fetch a
   * bucket credential, hash the file's bytes, upload, and hand the credential back
   * to the same bucket's bag whether or not the upload threw. There is no auth
   * guard and the echoed hash is not compared.
   */
  function UploadFile(s: Session, bucketId: NString, source: Stream, contents: seq<Hex.byte>, sha1: seq<Hex.byte> -> Hex.Digest,
                      fileName: NString, fileInfo: Option<map<string, string>>, contentType: NString, backend: Backend): (r: Outcome<Session, FileInfo>)
    ensures var fetch := FetchUploadConfig(s, bucketId, backend);
      fetch.result.Err? ==> r == Outcome(fetch.state, Err(fetch.result.error), fetch.calls)
    ensures var fetch := FetchUploadConfig(s, bucketId, backend);
      fetch.result.Ok? ==>
        && r.calls == fetch.calls + [Call.UploadFile(UploadRequestFor(fetch.result.value, source, Hex.Sha1Hex(sha1(contents)), fileName, contentType, fileInfo))]
        && r.result == backend.uploadFile(UploadRequestFor(fetch.result.value, source, Hex.Sha1Hex(sha1(contents)), fileName, contentType, fileInfo))
        && r.state == ReturnUploadConfig(fetch.state, bucketId, fetch.result.value).value
  {
    var fetch := FetchUploadConfig(s, bucketId, backend);
    match fetch.result
    case Err(e) => Outcome(fetch.state, Err(e), fetch.calls)
    case Ok(config) =>
      var hash := Hex.Sha1Hex(sha1(contents));
      var request := UploadRequestFor(config, source, hash, fileName, contentType, fileInfo);
      var back := ReturnUploadConfig(fetch.state, bucketId, config).value;
      Outcome(back, backend.uploadFile(request), fetch.calls + [Call.UploadFile(request)])
  }

  /** The upload request built from a credential and the caller's arguments. */
  function UploadRequestFor(config: UploadConfig, source: Stream, hash: string, fileName: NString, contentType: NString,
                            fileInfo: Option<map<string, string>>): UploadRequest {
    UploadRequest(config.uploadUrl, config.authorizationToken, Some(source), Some(hash), fileName, contentType, fileInfo)
  }

  /**
   * After any upload that got a credential, successful or not, the bucket's bag
   * holds one credential more than the fetch left it with: nothing leaks.
   */
  lemma UploadReturnsCredential(s: Session, bucketId: NString, source: Stream, contents: seq<Hex.byte>, sha1: seq<Hex.byte> -> Hex.Digest,
                                fileName: NString, fileInfo: Option<map<string, string>>, contentType: NString, backend: Backend)
    requires FetchUploadConfig(s, bucketId, backend).result.Ok?
    ensures var r := UploadFile(s, bucketId, source, contents, sha1, fileName, fileInfo, contentType, backend);
      multiset(Pools.BagOf(r.state.uploadPool, bucketId.value)) ==
        multiset(Pools.BagOf(s.uploadPool, bucketId.value))
          + (if |Pools.BagOf(s.uploadPool, bucketId.value)| == 0 then multiset{FetchUploadConfig(s, bucketId, backend).result.value} else multiset{})
  {
    var fetch := FetchUploadConfig(s, bucketId, backend);
    var k := bucketId.value;
    var bag := Pools.BagOf(s.uploadPool, k);
    var o := Pools.FetchKeyed(s.uploadPool, bucketId, backend.getUploadUrl);
    if |bag| > 0 {
      assert o.state[k] + [o.result.value] == bag;
      assert multiset(bag) == multiset(o.state[k]) + multiset{o.result.value};
    }
  }

  /**
   * The hash an upload sends is the SHA-1 of the file's bytes, rendered as 40
   * upper-case hexadecimal characters that decode back to that digest.
   */
  lemma UploadSendsFortyHex(s: Session, bucketId: NString, source: Stream, contents: seq<Hex.byte>, sha1: seq<Hex.byte> -> Hex.Digest,
                            fileName: NString, fileInfo: Option<map<string, string>>, contentType: NString, backend: Backend)
    requires FetchUploadConfig(s, bucketId, backend).result.Ok?
    ensures var r := UploadFile(s, bucketId, source, contents, sha1, fileName, fileInfo, contentType, backend);
      |r.calls| > 0 && r.calls[|r.calls| - 1].UploadFile? && r.calls[|r.calls| - 1].request.sha1.Some?
    ensures var h := UploadFile(s, bucketId, source, contents, sha1, fileName, fileInfo, contentType, backend).calls[|UploadFile(s, bucketId, source, contents, sha1, fileName, fileInfo, contentType, backend).calls| - 1].request.sha1.value;
      |h| == 40 && (forall i :: 0 <= i < 40 ==> Hex.IsHexChar(h[i])) && Hex.HexDecode(h) == Some(sha1(contents))
  {
    var r := UploadFile(s, bucketId, source, contents, sha1, fileName, fileInfo, contentType, backend);
    var fetch := FetchUploadConfig(s, bucketId, backend);
    var h := Hex.Sha1Hex(sha1(contents));
    assert r.calls[|r.calls| - 1] == Call.UploadFile(UploadRequestFor(fetch.result.value, source, h, fileName, contentType, fileInfo));
    Hex.DigestRendersToForty(sha1(contents));
  }
}
