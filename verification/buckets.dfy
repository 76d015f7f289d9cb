/**
 * `B2Bucket`: a bucket handle, Present until it is deleted. Every operation
 * checks the state first, and the file-level operations create file handles and
 * listings scoped to the bucket.
 */
module Buckets {
  import opened Wrappers
  import opened Text
  import opened Objects
  import opened Remote
  import opened Paging
  import BucketCacher
  import Sessions
  import Files
  import LargeFiles
  import FilesIterator
  import VersionsIterator
  import UnfinishedIterator

  datatype BucketHandle = BucketHandle(bucket: BucketObject, state: BucketState)

  /** The constructor: a handle on a listed or created bucket is Present. */
  function NewBucket(b: BucketObject): (r: BucketHandle)
    ensures r.bucket == b && r.state == BucketState.Present
  {
    BucketHandle(b, BucketState.Present)
  }

  function StateName(s: BucketState): string {
    match s
    case Present => "Present"
    case Deleted => "Deleted"
  }

  /** `ThrowIfNot(desired)`. */
  function ThrowIfNot(h: BucketHandle, desired: BucketState): (r: Option<Error>)
    ensures r.None? <==> h.state == desired
    ensures r.Some? ==> r.value == InvalidState("B2 Bucket", h.bucket.bucketName, StateName(h.state), StateName(desired), h.bucket.bucketId)
  {
    if h.state != desired then Some(InvalidState("B2 Bucket", h.bucket.bucketName, StateName(h.state), StateName(desired), h.bucket.bucketId))
    else None
  }

  /** The guard every bucket operation starts with. */
  function NotPresent(h: BucketHandle): Error
    requires h.state != BucketState.Present
  {
    ThrowIfNot(h, BucketState.Present).value
  }

  /**
   * `DeleteAsync()`: one delete call; once it answered, the handle is Deleted,
   * the bucket leaves the client's cache (by the id it had) and the snapshot is
   * the answer.
   */
  function Delete(client: Sessions.Session, h: BucketHandle, backend: Backend): (r: Outcome<(Sessions.Session, BucketHandle), bool>)
    ensures h.state != BucketState.Present ==> r == Outcome((client, h), Err(NotPresent(h)), [])
    ensures h.state == BucketState.Present ==> r.calls == [Call.DeleteBucket(h.bucket.accountId, h.bucket.bucketId)]
    ensures r.result.Err? ==> r.state == (client, h)
    ensures r.result.Ok? ==>
      var answer := backend.deleteBucket(h.bucket.accountId, h.bucket.bucketId);
      && h.state == BucketState.Present && answer.Ok? && r.result.value
      && r.state.1 == BucketHandle(answer.value, BucketState.Deleted)
      && r.state.0 == client.(cache := r.state.0.cache)
      && BucketCacher.GetById(r.state.0.cache, h.bucket.bucketId) == Ok(None)
      && (forall c :: c in r.state.0.cache <==> c in client.cache && c.bucketId != h.bucket.bucketId)
      && r.state.0.cache == BucketCacher.Keep(client.cache, h.bucket.bucketId)
  {
    if h.state != BucketState.Present then Outcome((client, h), Err(NotPresent(h)), [])
    else
      var call := Call.DeleteBucket(h.bucket.accountId, h.bucket.bucketId);
      match backend.deleteBucket(h.bucket.accountId, h.bucket.bucketId)
      case Err(e) => Outcome((client, h), Err(e), [call])
      case Ok(result) =>
        var cache' := BucketCacher.RemoveBucket(client.cache, h.bucket);
        BucketCacher.RemoveIsKeep(client.cache, h.bucket);
        Outcome((client.(cache := cache'), BucketHandle(result, BucketState.Deleted)), Ok(true), [call])
  }

  /** `UpdateAsync(newType)`: one update call; the snapshot is the answer; the client's cache is not touched. */
  function Update(h: BucketHandle, newType: BucketType, backend: Backend): (r: Outcome<BucketHandle, bool>)
    ensures h.state != BucketState.Present ==> r == Outcome(h, Err(NotPresent(h)), [])
    ensures h.state == BucketState.Present ==> r.calls == [Call.UpdateBucket(h.bucket.accountId, h.bucket.bucketId, newType)]
    ensures r.state.state == h.state
    ensures r.result.Err? ==> r.state == h
    ensures r.result.Ok? ==> (r.result.value && backend.updateBucket(h.bucket.accountId, h.bucket.bucketId, newType).Ok? &&
      r.state.bucket == backend.updateBucket(h.bucket.accountId, h.bucket.bucketId, newType).value)
  {
    if h.state != BucketState.Present then Outcome(h, Err(NotPresent(h)), [])
    else
      var call := Call.UpdateBucket(h.bucket.accountId, h.bucket.bucketId, newType);
      match backend.updateBucket(h.bucket.accountId, h.bucket.bucketId, newType)
      case Err(e) => Outcome(h, Err(e), [call])
      case Ok(result) => Outcome(h.(bucket := result), Ok(true), [call])
  }

  /** `CreateFile(newName)`: no remote call; a New, simple file in this bucket. */
  function CreateFile(h: BucketHandle, newName: NString): (r: Result<Files.FileHandle, Error>)
    ensures r.Err? <==> h.state != BucketState.Present
    ensures r.Err? ==> r.error == NotPresent(h)
    ensures r.Ok? ==> (r.value.state == FileState.New && r.value.file.bucketId == h.bucket.bucketId
      && r.value.file.fileName == newName && r.value.file.action != Start && r.value.partPool.None?)
  {
    if h.state != BucketState.Present then Err(NotPresent(h)) else Ok(Files.NewFile(h.bucket.bucketId, newName, false))
  }

  /** `CreateLargeFileAsync(newName, contentType, fileInfo)`: one start call; the answer as a New large file. */
  function CreateLargeFile(h: BucketHandle, newName: NString, contentType: NString, fileInfo: Option<map<string, string>>, backend: Backend): (r: Outcome<BucketHandle, LargeFiles.LargeFileHandle>)
    ensures r.state == h
    ensures h.state != BucketState.Present ==> r.result == Err(NotPresent(h)) && r.calls == []
    ensures h.state == BucketState.Present ==>
      && r.calls == [Call.StartLargeFile(h.bucket.bucketId, newName, contentType, fileInfo)]
      && (r.result.Ok? <==> backend.startLargeFile(h.bucket.bucketId, newName, contentType, fileInfo).Ok?)
    ensures r.result.Ok? ==>
      && r.result.value.file == backend.startLargeFile(h.bucket.bucketId, newName, contentType, fileInfo).value
      && r.result.value.state == LargeFileState.New && r.result.value.partPool == []
  {
    if h.state != BucketState.Present then Outcome(h, Err(NotPresent(h)), [])
    else
      var call := Call.StartLargeFile(h.bucket.bucketId, newName, contentType, fileInfo);
      match backend.startLargeFile(h.bucket.bucketId, newName, contentType, fileInfo)
      case Err(e) => Outcome(h, Err(e), [call])
      case Ok(u) => Outcome(h, Ok(LargeFiles.FromUnfinished(u)), [call])
  }

  /** `GetFileAsync(fileId)`: one file-info call; the answer as a Present file handle. */
  function GetFile(h: BucketHandle, fileId: NString, backend: Backend): (r: Outcome<BucketHandle, Files.FileHandle>)
    ensures r.state == h
    ensures h.state != BucketState.Present ==> r.result == Err(NotPresent(h)) && r.calls == []
    ensures h.state == BucketState.Present ==> (r.calls == [Call.GetFileInfo(fileId)]
      && (r.result.Ok? <==> backend.getFileInfo(fileId).Ok?))
    ensures r.result.Ok? ==> r.result.value == Files.FromInfo(backend.getFileInfo(fileId).value)
  {
    if h.state != BucketState.Present then Outcome(h, Err(NotPresent(h)), [])
    else
      var call := Call.GetFileInfo(fileId);
      match backend.getFileInfo(fileId)
      case Err(e) => Outcome(h, Err(e), [call])
      case Ok(info) => Outcome(h, Ok(Files.FromInfo(info)), [call])
  }

  /** The failure `GetLargeFileAsync` throws when the listing has no entry. */
  const LargeFileNotFound: Error := B2Failure(404, Some("not_found"), Some("file_state_none"))

  /** The one-entry listing `GetLargeFileAsync` starts from the file id. */
  function LargeFileProbe(h: BucketHandle, fileId: NString): UnfinishedIterator.UnfinishedIterator {
    UnfinishedIterator.NewIterator(h.bucket.bucketId, fileId).(pageSize := 1)
  }

  /**
   * `GetLargeFileAsync(fileId)` as written: the first entry of an unfinished
   * listing of this bucket that starts at `fileId` with a page size of one, as a
   * large file; an empty listing is a not-found failure.
   */
  function GetLargeFile(h: BucketHandle, fileId: NString, backend: Backend): (r: Outcome<BucketHandle, LargeFiles.LargeFileHandle>)
    ensures r.state == h
    ensures h.state != BucketState.Present ==> r.result == Err(NotPresent(h)) && r.calls == []
    ensures h.state == BucketState.Present ==> r.calls == [ListUnfinished(h.bucket.bucketId, fileId, 1)]
    ensures h.state == BucketState.Present ==>
      var answer := backend.listUnfinished(h.bucket.bucketId, fileId, 1);
      && (answer.Err? ==> r.result == Err(Aggregate(answer.error)))
      && (answer.Ok? && |answer.value.files| == 0 ==> r.result == Err(LargeFileNotFound))
      && (answer.Ok? && |answer.value.files| > 0 ==> r.result == Ok(LargeFiles.FromUnfinished(answer.value.files[0])))
  {
    if h.state != BucketState.Present then Outcome(h, Err(NotPresent(h)), [])
    else
      var run := FirstOrDefault(UnfinishedIterator.Step(backend, LargeFiles.FromUnfinished), LargeFileProbe(h, fileId));
      UnfinishedIterator.FirstOfOnePage(backend, LargeFiles.FromUnfinished, h.bucket.bucketId, fileId);
      if run.stop.Threw? then Outcome(h, Err(run.stop.error), run.calls)
      else if |run.items| == 0 then Outcome(h, Err(LargeFileNotFound), run.calls)
      else Outcome(h, Ok(run.items[0]), run.calls)
  }

  /**
   * The listing starts AT the given id, and the service answers the next
   * unfinished file when that one is not unfinished any more: the handle
   * returned can then belong to another file.
   */
  lemma GetLargeFileCanReturnAnotherFile(h: BucketHandle, backend: Backend, other: UnfinishedLargeFile)
    requires h.state == BucketState.Present
    requires other.fileId == Some("4_zb")
    requires backend.listUnfinished(h.bucket.bucketId, Some("4_za"), 1) == Ok(UnfinishedList([other], None))
    ensures GetLargeFile(h, Some("4_za"), backend).result.Ok?
    ensures GetLargeFile(h, Some("4_za"), backend).result.value.file.fileId == Some("4_zb")
  {
  }

  /**
   * `GetLargeFileAsync(fileId)` as intended: the same single request, but an
   * entry whose id is not the one asked for means the file is not an unfinished
   * large file, which is the not-found failure.
   */
  function GetLargeFileExact(h: BucketHandle, fileId: NString, backend: Backend): (r: Outcome<BucketHandle, LargeFiles.LargeFileHandle>)
    ensures r.state == h
    ensures h.state != BucketState.Present ==> r.result == Err(NotPresent(h)) && r.calls == []
    ensures h.state == BucketState.Present ==> r.calls == [ListUnfinished(h.bucket.bucketId, fileId, 1)]
    ensures r.result.Ok? ==> r.result.value.file.fileId == fileId && r.result.value.state == LargeFileState.New
    ensures h.state == BucketState.Present ==>
      var answer := backend.listUnfinished(h.bucket.bucketId, fileId, 1);
      (r.result.Ok? <==> answer.Ok? && |answer.value.files| > 0 && answer.value.files[0].fileId == fileId)
  {
    var found := GetLargeFile(h, fileId, backend);
    if found.result.Ok? && found.result.value.file.fileId != fileId then Outcome(h, Err(LargeFileNotFound), found.calls)
    else found
  }

  /** `GetFiles(startFileName)`: no remote call; a name listing of this bucket. */
  function GetFiles(h: BucketHandle, startName: NString): (r: Result<FilesIterator.FilesIterator, Error>)
    ensures r.Err? <==> h.state != BucketState.Present
    ensures r.Err? ==> r.error == NotPresent(h)
    ensures r.Ok? ==> r.value.bucketId == h.bucket.bucketId && r.value.current == startName && r.value.pageSize == DefaultPageSize
  {
    if h.state != BucketState.Present then Err(NotPresent(h)) else Ok(FilesIterator.NewIterator(h.bucket.bucketId, startName))
  }

  /** `GetFileVersions(startFileName, startFileId)`: no remote call; a version listing of this bucket. */
  function GetFileVersions(h: BucketHandle, startName: NString, startId: NString): (r: Result<VersionsIterator.VersionsIterator, Error>)
    ensures r.Err? <==> h.state != BucketState.Present
    ensures r.Err? ==> r.error == NotPresent(h)
    ensures r.Ok? ==> r.value == VersionsIterator.VersionsIterator(h.bucket.bucketId, startName, startId, DefaultPageSize)
  {
    if h.state != BucketState.Present then Err(NotPresent(h)) else Ok(VersionsIterator.NewIterator(h.bucket.bucketId, startName, startId))
  }

  /** `GetUnfinishedLargeFiles(startFileId)`: no remote call; an unfinished listing of this bucket. */
  function GetUnfinishedLargeFiles(h: BucketHandle, startId: NString): (r: Result<UnfinishedIterator.UnfinishedIterator, Error>)
    ensures r.Err? <==> h.state != BucketState.Present
    ensures r.Err? ==> r.error == NotPresent(h)
    ensures r.Ok? ==> r.value == UnfinishedIterator.UnfinishedIterator(h.bucket.bucketId, startId, DefaultPageSize)
  {
    if h.state != BucketState.Present then Err(NotPresent(h)) else Ok(UnfinishedIterator.NewIterator(h.bucket.bucketId, startId))
  }

  /** `HideFileAsync(fileName)`: one hide call in this bucket; true once it answered. */
  function HideFile(h: BucketHandle, fileName: NString, backend: Backend): (r: Outcome<BucketHandle, bool>)
    ensures r.state == h
    ensures h.state != BucketState.Present ==> r.result == Err(NotPresent(h)) && r.calls == []
    ensures h.state == BucketState.Present ==> (r.calls == [Call.HideFile(h.bucket.bucketId, fileName)]
      && (r.result.Ok? <==> backend.hideFile(h.bucket.bucketId, fileName).Ok?))
    ensures r.result.Ok? ==> r.result.value
  {
    if h.state != BucketState.Present then Outcome(h, Err(NotPresent(h)), [])
    else
      var call := Call.HideFile(h.bucket.bucketId, fileName);
      match backend.hideFile(h.bucket.bucketId, fileName)
      case Err(e) => Outcome(h, Err(e), [call])
      case Ok(_) => Outcome(h, Ok(true), [call])
  }

  /** A deleted bucket refuses every operation with the same state error and contacts nobody. */
  lemma DeletedBucketRejectsAll(client: Sessions.Session, h: BucketHandle, backend: Backend, name: NString, id: NString, t: BucketType)
    requires Delete(client, h, backend).result.Ok?
    ensures var gone := Delete(client, h, backend).state.1;
      && gone.state == BucketState.Deleted
      && Delete(client, gone, backend) == Outcome((client, gone), Err(NotPresent(gone)), [])
      && Update(gone, t, backend) == Outcome(gone, Err(NotPresent(gone)), [])
      && CreateFile(gone, name) == Err(NotPresent(gone))
      && GetFile(gone, id, backend).calls == [] && GetLargeFile(gone, id, backend).calls == []
      && HideFile(gone, name, backend).calls == [] && CreateLargeFile(gone, name, name, None, backend).calls == []
      && GetFiles(gone, name).Err? && GetFileVersions(gone, name, id).Err? && GetUnfinishedLargeFiles(gone, id).Err?
  {
  }
}
