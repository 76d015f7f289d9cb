/**
 * `B2LargeFile`: an unfinished large file being assembled from parts. It is New
 * until it is finished, keeps its own bag of part credentials, and finishing it
 * yields an ordinary file handle.
 */
module LargeFiles {
  import opened Wrappers
  import opened Text
  import opened Objects
  import opened Remote
  import Files
  import PartsIterator

  /** The handle: the listing entry it was made from, its state and its part-credential bag. */
  datatype LargeFileHandle = LargeFileHandle(file: UnfinishedLargeFile, state: LargeFileState, partPool: seq<PartConfig>)

  /** The constructor: the state starts at its default, New, with an empty bag. */
  function FromUnfinished(u: UnfinishedLargeFile): (r: LargeFileHandle)
    ensures r.file == u && r.state == LargeFileState.New && r.partPool == []
  {
    LargeFileHandle(u, LargeFileState.New, [])
  }

  /**
   * The view of a file-version entry the versions listing wraps as a large file:
   * the fields a large file exposes, taken from the entry.
   */
  function UnfinishedOf(info: FileInfo): (r: UnfinishedLargeFile)
    ensures r.fileId == info.fileId && r.fileName == info.fileName && r.accountId == info.accountId
    ensures r.bucketId == info.bucketId && r.contentType == info.contentType && r.fileInfo == info.fileInfo
    ensures r.uploadTimestamp == info.uploadTimestamp && r.action == info.action
  {
    UnfinishedLargeFile(info.action, info.fileId, info.fileName, info.uploadTimestamp, info.accountId,
                        info.bucketId, info.contentType, info.fileInfo)
  }

  function StateName(s: LargeFileState): string {
    match s
    case New => "New"
    case Finished => "Finished"
  }

  /** `ThrowIfNot(desired)`. */
  function ThrowIfNot(h: LargeFileHandle, desired: LargeFileState): (r: Option<Error>)
    ensures r.None? <==> h.state == desired
    ensures r.Some? ==> r.value == InvalidState("B2 Large File", h.file.fileName, StateName(h.state), StateName(desired), h.file.fileId)
  {
    if h.state != desired then Some(InvalidState("B2 Large File", h.file.fileName, StateName(h.state), StateName(desired), h.file.fileId))
    else None
  }

  /** `UploadPartAsync`: New only (checked before any credential is fetched), then a part upload with the own bag. */
  function UploadPart(h: LargeFileHandle, partNumber: int, source: Stream, sha1Hash: NString, backend: Backend): (r: Outcome<LargeFileHandle, ()>)
    ensures h.state != LargeFileState.New ==> r == Outcome(h, Err(ThrowIfNot(h, LargeFileState.New).value), [])
    ensures h.state == LargeFileState.New ==>
      var up := Files.UploadPartWith(h.partPool, h.file.fileId, partNumber, source, sha1Hash, backend);
      r == Outcome(h.(partPool := up.state), up.result, up.calls)
    ensures r.state.file == h.file && r.state.state == h.state
  {
    if ThrowIfNot(h, LargeFileState.New).Some? then Outcome(h, Err(ThrowIfNot(h, LargeFileState.New).value), [])
    else
      var up := Files.UploadPartWith(h.partPool, h.file.fileId, partNumber, source, sha1Hash, backend);
      Outcome(h.(partPool := up.state), up.result, up.calls)
  }

  /**
   * `FinishAsync(hashes)`: no state check; one finish call; on success the
   * state is Finished and the answer comes back as a Present file handle.
   */
  function Finish(h: LargeFileHandle, hashes: seq<NString>, backend: Backend): (r: Outcome<LargeFileHandle, Files.FileHandle>)
    ensures r.calls == [FinishLargeFile(h.file.fileId, hashes)]
    ensures r.result.Ok? <==> backend.finishLargeFile(h.file.fileId, hashes).Ok?
    ensures r.result.Err? ==> r.state == h && r.result.error == backend.finishLargeFile(h.file.fileId, hashes).error
    ensures r.result.Ok? ==>
      && r.state == h.(state := LargeFileState.Finished)
      && r.result.value.state == FileState.Present
      && r.result.value.file == backend.finishLargeFile(h.file.fileId, hashes).value
  {
    var call := FinishLargeFile(h.file.fileId, hashes);
    match backend.finishLargeFile(h.file.fileId, hashes)
    case Err(e) => Outcome(h, Err(e), [call])
    case Ok(info) => Outcome(h.(state := LargeFileState.Finished), Ok(Files.FromInfo(info)), [call])
  }

  /**
   * `FinishAcceptHashesAsync()`: New only; lists every part of the file from
   * part 1 and finishes with the listed hashes ordered by part number, whatever
   * they are.
   */
  function FinishAcceptHashes(h: LargeFileHandle, backend: Backend, fuel: nat): (r: Outcome<LargeFileHandle, Files.FileHandle>)
    ensures h.state != LargeFileState.New ==> r == Outcome(h, Err(ThrowIfNot(h, LargeFileState.New).value), [])
    ensures h.state == LargeFileState.New ==>
      var listing := PartsIterator.AllParts(backend, PartsIterator.NewIterator(h.file.fileId), fuel);
      && (listing.result.Err? ==> r == Outcome(h, Err(listing.result.error), listing.calls))
      && (listing.result.Ok? ==>
            var hashes := PartsIterator.OrderedHashes(listing.result.value);
            && r.calls == listing.calls + [FinishLargeFile(h.file.fileId, hashes)]
            && r.state == Finish(h, hashes, backend).state
            && r.result == Finish(h, hashes, backend).result)
  {
    if ThrowIfNot(h, LargeFileState.New).Some? then Outcome(h, Err(ThrowIfNot(h, LargeFileState.New).value), [])
    else
      var listing := PartsIterator.AllParts(backend, PartsIterator.NewIterator(h.file.fileId), fuel);
      match listing.result
      case Err(e) => Outcome(h, Err(e), listing.calls)
      case Ok(parts) =>
        var fin := Finish(h, PartsIterator.OrderedHashes(parts), backend);
        Outcome(fin.state, fin.result, listing.calls + fin.calls)
  }

  /**
   * The hash list sent when finishing is ordered by part number and holds
   * exactly the listed parts' hashes, whatever order the listing answered in.
   */
  lemma FinishSendsListedHashes(h: LargeFileHandle, backend: Backend, fuel: nat)
    requires h.state == LargeFileState.New
    requires PartsIterator.AllParts(backend, PartsIterator.NewIterator(h.file.fileId), fuel).result.Ok?
    ensures var parts := PartsIterator.AllParts(backend, PartsIterator.NewIterator(h.file.fileId), fuel).result.value;
      var r := FinishAcceptHashes(h, backend, fuel);
      && r.calls[|r.calls| - 1] == FinishLargeFile(h.file.fileId, PartsIterator.OrderedHashes(parts))
      && PartsIterator.SortedByNumber(PartsIterator.SortByNumber(parts))
      && multiset(PartsIterator.SortByNumber(parts)) == multiset(parts)
  {
    var parts := PartsIterator.AllParts(backend, PartsIterator.NewIterator(h.file.fileId), fuel).result.value;
    PartsIterator.SortOrdersAndPermutes(parts);
  }

  /** Once finished, a large file refuses part uploads and a second hash-accepting finish, without remote calls. */
  lemma FinishedRefusesUploads(h: LargeFileHandle, hashes: seq<NString>, backend: Backend, partNumber: int, source: Stream, sha1Hash: NString, fuel: nat)
    requires Finish(h, hashes, backend).result.Ok?
    ensures var done := Finish(h, hashes, backend).state;
      && UploadPart(done, partNumber, source, sha1Hash, backend).result.Err?
      && UploadPart(done, partNumber, source, sha1Hash, backend).calls == []
      && FinishAcceptHashes(done, backend, fuel).result.Err?
      && FinishAcceptHashes(done, backend, fuel).calls == []
  {
  }
}
