/**
 * `B2File`: a file handle with the lifecycle New -> Present -> Deleted, a
 * large-file flag (the `Start` action), its own part-credential bag, and uploads
 * that compare the hash the service echoes back with the expected one.
 */
module Files {
  import opened Wrappers
  import opened Text
  import opened Objects
  import opened Remote
  import Hex
  import Pools
  import PartsIterator
  import Sessions

  /**
   * The handle: the file snapshot, the lifecycle state, and the part-credential
   * bag, which exists (is non-null) only once the handle was made a large file.
   */
  datatype FileHandle = FileHandle(file: FileInfo, state: FileState, partPool: Option<seq<PartConfig>>)

  const AutoContentType: string := "b2/x-auto"

  /** `InitLargeFile`: marks the snapshot as a large file and creates an empty part bag. */
  function InitLargeFile(h: FileHandle): (r: FileHandle)
    ensures r.file == h.file.(action := Start) && r.state == h.state && r.partPool == Some([])
  {
    h.(file := h.file.(action := Start), partPool := Some([]))
  }

  /** The new-file constructor: a handle in state New for a name in a bucket, with the automatic content type. */
  function NewFile(bucketId: NString, newName: NString, isLargeFile: bool): (r: FileHandle)
    ensures r.state == FileState.New
    ensures r.file.fileName == newName && r.file.bucketId == bucketId
    ensures r.file.contentType == Some(AutoContentType)
    ensures r.file.action == Start <==> isLargeFile
    ensures r.partPool.Some? <==> isLargeFile
    ensures r.file.fileId.None? && r.file.contentSha1.None? && r.file.fileInfo.None?
  {
    var h := FileHandle(EmptyFileInfo.(fileName := newName, bucketId := bucketId, contentType := Some(AutoContentType)),
                        FileState.New, None);
    if isLargeFile then InitLargeFile(h) else h
  }

  /** The snapshot-backed constructor: Present, the snapshot as given, a part bag iff it is a large file. */
  function FromInfo(info: FileInfo): (r: FileHandle)
    ensures r.state == FileState.Present && r.file == info
    ensures r.partPool.Some? <==> info.action == Start
    ensures r.partPool.Some? ==> r.partPool.value == []
  {
    var h := FileHandle(info, FileState.Present, None);
    if info.action == Start then InitLargeFile(h) else h
  }

  /** The unfinished-large-file constructor: Present, a large file, and the fields it shares with the listing entry. */
  function FromUnfinished(u: UnfinishedLargeFile): (r: FileHandle)
    ensures r.state == FileState.Present && r.partPool == Some([])
    ensures r.file.action == Start
    ensures r.file.bucketId == u.bucketId && r.file.accountId == u.accountId && r.file.fileId == u.fileId
    ensures r.file.fileName == u.fileName && r.file.fileInfo == u.fileInfo && r.file.contentType == u.contentType
    ensures r.file.uploadTimestamp == u.uploadTimestamp
  {
    var info := EmptyFileInfo.(bucketId := u.bucketId, accountId := u.accountId, fileId := u.fileId, fileName := u.fileName,
                               fileInfo := u.fileInfo, contentType := u.contentType, uploadTimestamp := u.uploadTimestamp);
    InitLargeFile(FileHandle(info, FileState.Present, None))
  }

  function StateName(s: FileState): string {
    match s
    case New => "New"
    case Present => "Present"
    case Deleted => "Deleted"
  }

  /** `ThrowIfNot(desired)`: an `InvalidOperationException` naming the file, both states and the id. */
  function ThrowIfNot(h: FileHandle, desired: FileState): (r: Option<Error>)
    ensures r.None? <==> h.state == desired
    ensures r.Some? ==> r.value == InvalidState("B2 File", h.file.fileName, StateName(h.state), StateName(desired), h.file.fileId)
  {
    if h.state != desired then Some(InvalidState("B2 File", h.file.fileName, StateName(h.state), StateName(desired), h.file.fileId))
    else None
  }

  /** `ThrowIfLargeFile(requireLarge)`: throws iff being a large file differs from what the operation requires. */
  function ThrowIfLargeFile(h: FileHandle, requireLarge: bool): (r: Option<Error>)
    ensures r.None? <==> ((h.file.action == Start) == requireLarge)
    ensures r.Some? ==> r.value.InvalidOperation?
  {
    var name := Render(h.file.fileName);
    var id := Render(h.file.fileId);
    if h.file.action == Start && !requireLarge then
      Some(InvalidOperation("The B2 File, " + name + ", is a large file, and it can't be for this operation (id: " + id + ")"))
    else if h.file.action != Start && requireLarge then
      Some(InvalidOperation("The B2 File, " + name + ", is not a large file, and it must be for this operation (id: " + id + ")"))
    else None
  }

  // The setters of a file that is still to be uploaded.

  function SetUploadContentType(h: FileHandle, contentType: NString): (r: Result<FileHandle, Error>)
    ensures r.Ok? <==> h.state == FileState.New
    ensures r.Err? ==> r.error == ThrowIfNot(h, FileState.New).value
    ensures r.Ok? ==> r.value == h.(file := h.file.(contentType := contentType))
  {
    if ThrowIfNot(h, FileState.New).Some? then Err(ThrowIfNot(h, FileState.New).value)
    else Ok(h.(file := h.file.(contentType := contentType)))
  }

  function SetUploadSha1(h: FileHandle, sha1: NString): (r: Result<FileHandle, Error>)
    ensures r.Ok? <==> h.state == FileState.New
    ensures r.Err? ==> r.error == ThrowIfNot(h, FileState.New).value
    ensures r.Ok? ==> r.value == h.(file := h.file.(contentSha1 := sha1))
  {
    if ThrowIfNot(h, FileState.New).Some? then Err(ThrowIfNot(h, FileState.New).value)
    else Ok(h.(file := h.file.(contentSha1 := sha1)))
  }

  /**
   * `SetUploadFileInfo(key, value)`: creates the info map on first use, then
   * stores the value under the key, overwriting; a null key throws once the map
   * exists.
   */
  function SetUploadFileInfo(h: FileHandle, key: NString, value: string): (r: Outcome<FileHandle, ()>)
    ensures r.calls == []
    ensures h.state != FileState.New ==> r == Outcome(h, Err(ThrowIfNot(h, FileState.New).value), [])
    ensures h.state == FileState.New ==> r.state.file.fileInfo.Some? && r.state.state == h.state && r.state.partPool == h.partPool
    ensures h.state == FileState.New && key.None? ==> r.result == Err(ArgumentNull("key"))
    ensures h.state == FileState.New && key.Some? ==> r.result.Ok?
    ensures h.state == FileState.New && key.Some? ==> var info := r.state.file.fileInfo.value;
      && key.value in info && info[key.value] == value
      && info.Keys == (if h.file.fileInfo.Some? then h.file.fileInfo.value.Keys else {}) + {key.value}
      && (forall k :: k in info && k != key.value ==> info[k] == h.file.fileInfo.value[k])
  {
    if ThrowIfNot(h, FileState.New).Some? then Outcome(h, Err(ThrowIfNot(h, FileState.New).value), [])
    else
      var info := if h.file.fileInfo.None? then map[] else h.file.fileInfo.value;
      var created := h.(file := h.file.(fileInfo := Some(info)));
      if key.None? then Outcome(created, Err(ArgumentNull("key")), [])
      else Outcome(created.(file := created.file.(fileInfo := Some(info[key.value := value]))), Ok(()), [])
  }

  /** Setting the same key twice keeps only the later value. */
  lemma SetInfoOverwrites(h: FileHandle, key: string, first: string, second: string)
    requires h.state == FileState.New
    ensures var once := SetUploadFileInfo(h, Some(key), first).state;
      SetUploadFileInfo(once, Some(key), second).state == SetUploadFileInfo(h, Some(key), second).state
  {
    var info := if h.file.fileInfo.None? then map[] else h.file.fileInfo.value;
    assert info[key := first][key := second] == info[key := second];
  }

  /**
   * The common tail of the two simple uploads: one upload call with the fetched
   * credential; the echoed hash must equal `expected`, and then the snapshot
   * becomes the server's answer and the state Present. The credential goes back,
   * in `finally`, to the client's bag for the snapshot's bucket id as it is by
   * then; a failure of that return replaces the upload's own outcome.
   */
  function UploadWith(client: Sessions.Session, h: FileHandle, config: UploadConfig, source: Stream, expected: NString, backend: Backend): (r: Outcome<(Sessions.Session, FileHandle), ()>)
  {
    var request := RequestOf(h, config, source, expected);
    var call := Call.UploadFile(request);
    var (h', outcome) :=
      match backend.uploadFile(request)
      case Err(e) => (h, Err(Aggregate(e)))
      case Ok(result) =>
        if result.contentSha1 != expected then (h, Err(HashMismatch))
        else (h.(file := result, state := FileState.Present), Ok(()));
    match Sessions.ReturnUploadConfig(client, h'.file.bucketId, config)
    case Err(e) => Outcome((client, h'), Err(e), [call])
    case Ok(client') => Outcome((client', h'), outcome, [call])
  }

  /** The request an upload sends: the credential, the body, the expected hash and the snapshot's name, type and info. */
  function RequestOf(h: FileHandle, config: UploadConfig, source: Stream, sha1: NString): UploadRequest {
    UploadRequest(config.uploadUrl, config.authorizationToken, Some(source), sha1, h.file.fileName, h.file.contentType, h.file.fileInfo)
  }

  /** The credential the client hands out for the handle's bucket. */
  function CredentialFor(client: Sessions.Session, h: FileHandle, backend: Backend): Outcome<Sessions.Session, UploadConfig> {
    Sessions.FetchUploadConfig(client, h.file.bucketId, backend)
  }

  /**
   * An upload with the hash `expected`: guards (New, not a large file), fetch a
   * bucket credential from the client, upload, compare, give the credential back.
   */
  function UploadChecked(client: Sessions.Session, h: FileHandle, source: Stream, expected: NString, backend: Backend): (r: Outcome<(Sessions.Session, FileHandle), ()>)
    ensures h.state != FileState.New ==> r == Outcome((client, h), Err(ThrowIfNot(h, FileState.New).value), [])
    ensures h.state == FileState.New && h.file.action == Start ==>
      r == Outcome((client, h), Err(ThrowIfLargeFile(h, false).value), [])
    ensures r.result.Ok? ==>
      && h.state == FileState.New && h.file.action != Start
      && CredentialFor(client, h, backend).result.Ok?
      && var config := CredentialFor(client, h, backend).result.value;
      && backend.uploadFile(RequestOf(h, config, source, expected)).Ok?
      && var result := backend.uploadFile(RequestOf(h, config, source, expected)).value;
      && result.contentSha1 == expected
      && r.state.1 == h.(file := result, state := FileState.Present)
    ensures r.result.Err? ==> r.state.1 == h || (r.result.error == Pools.NullKey && r.state.1.state == FileState.Present)
    ensures r.state.0 == client.(uploadPool := r.state.0.uploadPool)
    ensures |r.calls| <= 2
  {
    if ThrowIfNot(h, FileState.New).Some? then Outcome((client, h), Err(ThrowIfNot(h, FileState.New).value), [])
    else if ThrowIfLargeFile(h, false).Some? then Outcome((client, h), Err(ThrowIfLargeFile(h, false).value), [])
    else
      var fetch := CredentialFor(client, h, backend);
      match fetch.result
      case Err(e) => Outcome((fetch.state, h), Err(e), fetch.calls)
      case Ok(config) =>
        var up := UploadWith(fetch.state, h, config, source, expected, backend);
        Outcome(up.state, up.result, fetch.calls + up.calls)
  }

  /** `UploadDataAsync(source)`: the expected hash is the one set with `SetUploadSha1`. */
  function UploadData(client: Sessions.Session, h: FileHandle, source: Stream, backend: Backend): (r: Outcome<(Sessions.Session, FileHandle), ()>)
    ensures r.result.Ok? ==> r.state.1.file.contentSha1 == h.file.contentSha1 && r.state.1.state == FileState.Present
  {
    UploadChecked(client, h, source, h.file.contentSha1, backend)
  }

  /** `UploadFileDataAsync(file)`: the expected hash is the forty-digit hex SHA-1 of the file's bytes. */
  function UploadFileData(client: Sessions.Session, h: FileHandle, source: Stream, contents: seq<Hex.byte>, sha1: seq<Hex.byte> -> Hex.Digest, backend: Backend): (r: Outcome<(Sessions.Session, FileHandle), ()>)
    ensures r.result.Ok? ==> var echoed := r.state.1.file.contentSha1;
      echoed.Some? && |echoed.value| == 40 && Hex.HexDecode(echoed.value) == Some(sha1(contents))
  {
    UploadChecked(client, h, source, Some(Hex.Sha1Hex(sha1(contents))), backend)
  }

  /**
   * A hash mismatch throws and leaves the handle exactly as it was, and the
   * credential still goes back to the bucket's bag.
   */
  lemma MismatchLeavesHandle(client: Sessions.Session, h: FileHandle, source: Stream, expected: NString, backend: Backend)
    requires h.state == FileState.New && h.file.action != Start
    requires var fetch := CredentialFor(client, h, backend);
      && fetch.result.Ok?
      && backend.uploadFile(RequestOf(h, fetch.result.value, source, expected)).Ok?
      && backend.uploadFile(RequestOf(h, fetch.result.value, source, expected)).value.contentSha1 != expected
    ensures var r := UploadChecked(client, h, source, expected, backend);
      var fetch := CredentialFor(client, h, backend);
      && r.result == Err(HashMismatch)
      && r.state.1 == h
      && multiset(Pools.BagOf(r.state.0.uploadPool, h.file.bucketId.value))
         == multiset(Pools.BagOf(fetch.state.uploadPool, h.file.bucketId.value)) + multiset{fetch.result.value}
  {
  }

  /**
   * An upload that passed the guards and got a credential gives it back to the
   * bag of the snapshot's bucket, whatever the upload did, unless that bucket id
   * is null.
   */
  lemma UploadReturnsCredential(client: Sessions.Session, h: FileHandle, source: Stream, expected: NString, backend: Backend)
    requires h.state == FileState.New && h.file.action != Start
    requires CredentialFor(client, h, backend).result.Ok?
    requires UploadChecked(client, h, source, expected, backend).result != Err(Pools.NullKey)
    ensures var r := UploadChecked(client, h, source, expected, backend);
      var fetch := CredentialFor(client, h, backend);
      && r.state.1.file.bucketId.Some?
      && var k := r.state.1.file.bucketId.value;
      multiset(Pools.BagOf(r.state.0.uploadPool, k)) == multiset(Pools.BagOf(fetch.state.uploadPool, k)) + multiset{fetch.result.value}
  {
  }

  /** `StartLargeFileAsync`: guards (New, a large file), one call, then the snapshot is the answer and the state Present. */
  function StartLargeFile(h: FileHandle, backend: Backend): (r: Outcome<FileHandle, ()>)
    ensures h.state != FileState.New || h.file.action != Start ==> r.calls == [] && r.state == h && r.result.Err?
    ensures h.state == FileState.New && h.file.action == Start ==>
      r.calls == [Call.StartLargeFile(h.file.bucketId, h.file.fileName, h.file.contentType, h.file.fileInfo)]
    ensures r.result.Ok? ==>
      var answer := backend.startLargeFileInfo(h.file.bucketId, h.file.fileName, h.file.contentType, h.file.fileInfo);
      answer.Ok? && r.state == h.(file := answer.value, state := FileState.Present)
    ensures r.result.Err? ==> r.state == h
  {
    if ThrowIfNot(h, FileState.New).Some? then Outcome(h, Err(ThrowIfNot(h, FileState.New).value), [])
    else if ThrowIfLargeFile(h, true).Some? then Outcome(h, Err(ThrowIfLargeFile(h, true).value), [])
    else
      var call := Call.StartLargeFile(h.file.bucketId, h.file.fileName, h.file.contentType, h.file.fileInfo);
      match backend.startLargeFileInfo(h.file.bucketId, h.file.fileName, h.file.contentType, h.file.fileInfo)
      case Err(e) => Outcome(h, Err(e), [call])
      case Ok(result) => Outcome(h.(file := result, state := FileState.Present), Ok(()), [call])
  }

  /** The request a part upload sends with a given part credential. */
  function PartRequestOf(config: PartConfig, partNumber: int, source: Stream, sha1Hash: NString): PartRequest {
    PartRequest(config.uploadUrl, config.authorizationToken, partNumber, Some(source), sha1Hash)
  }

  /** A part upload with `request` succeeds iff the service accepts it and echoes the expected hash. */
  predicate PartAccepted(backend: Backend, request: PartRequest, sha1Hash: NString) {
    backend.uploadPart(request).Ok? && backend.uploadPart(request).value.contentSha1 == sha1Hash
  }

  /**
   * A part upload with a part credential of a handle's own bag: reuse the
   * pooled one taken last, or mint exactly one, upload, compare the echoed
   * hash, and give the credential back to the bag in `finally`. A pooled
   * credential therefore leaves the bag as it was, and a minted one joins it.
   */
  function UploadPartWith(bag: seq<PartConfig>, fileId: NString, partNumber: int, source: Stream, sha1Hash: NString, backend: Backend): (r: Outcome<seq<PartConfig>, ()>)
    ensures |bag| > 0 ==>
      var request := PartRequestOf(bag[|bag| - 1], partNumber, source, sha1Hash);
      && r.state == bag
      && r.calls == [Call.UploadPart(request)]
      && (r.result.Ok? <==> PartAccepted(backend, request, sha1Hash))
      && (backend.uploadPart(request).Ok? && r.result.Err? ==> r.result.error == HashMismatch)
    ensures |bag| == 0 && backend.getPartUploadUrl(fileId).Err? ==>
      r == Outcome(bag, Err(backend.getPartUploadUrl(fileId).error), [GetPartUploadUrl(fileId)])
    ensures |bag| == 0 && backend.getPartUploadUrl(fileId).Ok? ==>
      var config := backend.getPartUploadUrl(fileId).value;
      var request := PartRequestOf(config, partNumber, source, sha1Hash);
      && r.state == [config]
      && r.calls == [GetPartUploadUrl(fileId), Call.UploadPart(request)]
      && (r.result.Ok? <==> PartAccepted(backend, request, sha1Hash))
      && (backend.uploadPart(request).Ok? && r.result.Err? ==> r.result.error == HashMismatch)
  {
    var fetch := Pools.Fetch(bag, backend.getPartUploadUrl(fileId), GetPartUploadUrl(fileId));
    match fetch.result
    case Err(e) => Outcome(fetch.state, Err(e), fetch.calls)
    case Ok(config) =>
      var request := PartRequestOf(config, partNumber, source, sha1Hash);
      var outcome :=
        match backend.uploadPart(request)
        case Err(e) => Err(e)
        case Ok(part) => if part.contentSha1 != sha1Hash then Err(HashMismatch) else Ok(());
      Outcome(Pools.Return(fetch.state, config), outcome, fetch.calls + [Call.UploadPart(request)])
  }

  /** After one part upload obtained a credential, every later one reuses it: one call, no mint. */
  lemma PartCredentialIsReused(bag: seq<PartConfig>, fileId: NString, n1: int, n2: int, s1: Stream, s2: Stream, h1: NString, h2: NString, backend: Backend)
    requires |bag| > 0 || backend.getPartUploadUrl(fileId).Ok?
    ensures var first := UploadPartWith(bag, fileId, n1, s1, h1, backend);
      var second := UploadPartWith(first.state, fileId, n2, s2, h2, backend);
      && |second.calls| == 1 && second.calls[0].UploadPart?
      && second.state == first.state
  {
  }

  /** `UploadLargeFilePartAsync`: requires a large file (there is no state guard); a missing bag throws. */
  function UploadLargeFilePart(h: FileHandle, partNumber: int, source: Stream, sha1Hash: NString, backend: Backend): (r: Outcome<FileHandle, ()>)
    ensures h.file.action != Start ==> r.result.Err? && r.result.error.InvalidOperation? && r.calls == [] && r.state == h
    ensures h.file.action == Start && h.partPool.None? ==> r == Outcome(h, Err(NullReference), [])
    ensures r.state.file == h.file && r.state.state == h.state
    ensures r.result.Ok? ==> (h.partPool.Some? &&
      r.state.partPool == Some(UploadPartWith(h.partPool.value, h.file.fileId, partNumber, source, sha1Hash, backend).state))
  {
    if ThrowIfLargeFile(h, true).Some? then Outcome(h, Err(ThrowIfLargeFile(h, true).value), [])
    else if h.partPool.None? then Outcome(h, Err(NullReference), [])
    else
      var up := UploadPartWith(h.partPool.value, h.file.fileId, partNumber, source, sha1Hash, backend);
      Outcome(h.(partPool := Some(up.state)), up.result, up.calls)
  }

  /** `FinalizeLargeFileAsync(hashes)`: requires a large file; the snapshot becomes the answer, the state is kept. */
  function FinalizeLargeFile(h: FileHandle, hashes: seq<NString>, backend: Backend): (r: Outcome<FileHandle, ()>)
    ensures h.file.action != Start ==> r.result.Err? && r.calls == [] && r.state == h
    ensures h.file.action == Start ==> r.calls == [FinishLargeFile(h.file.fileId, hashes)]
    ensures r.state.state == h.state && r.state.partPool == h.partPool
    ensures r.result.Ok? ==> (backend.finishLargeFile(h.file.fileId, hashes).Ok?
      && r.state.file == backend.finishLargeFile(h.file.fileId, hashes).value)
  {
    if ThrowIfLargeFile(h, true).Some? then Outcome(h, Err(ThrowIfLargeFile(h, true).value), [])
    else
      var call := FinishLargeFile(h.file.fileId, hashes);
      match backend.finishLargeFile(h.file.fileId, hashes)
      case Err(e) => Outcome(h, Err(e), [call])
      case Ok(result) => Outcome(h.(file := result), Ok(()), [call])
  }

  /**
   * `FinalizeLargeFileAsync()`: lists every part from part 1, then finishes with
   * their hashes ordered by part number. The listing runs before the large-file
   * guard, because the hash list is an argument of the call that checks it.
   */
  function FinalizeFromParts(h: FileHandle, backend: Backend, fuel: nat): (r: Outcome<FileHandle, ()>)
    ensures var listing := PartsIterator.AllParts(backend, PartsIterator.NewIterator(h.file.fileId), fuel);
      && (listing.result.Err? ==> r == Outcome(h, Err(listing.result.error), listing.calls))
      && (listing.result.Ok? ==>
            var fin := FinalizeLargeFile(h, PartsIterator.OrderedHashes(listing.result.value), backend);
            r.calls == listing.calls + fin.calls && r.result == fin.result && r.state == fin.state)
  {
    var listing := PartsIterator.AllParts(backend, PartsIterator.NewIterator(h.file.fileId), fuel);
    match listing.result
    case Err(e) => Outcome(h, Err(e), listing.calls)
    case Ok(parts) =>
      var fin := FinalizeLargeFile(h, PartsIterator.OrderedHashes(parts), backend);
      Outcome(fin.state, fin.result, listing.calls + fin.calls)
  }

  /** Finalizing from the listing reaches the service even for a handle that is not a large file. */
  lemma FinalizeListsBeforeGuard(h: FileHandle, backend: Backend, fuel: nat)
    requires h.file.action != Start && fuel > 0
    ensures |FinalizeFromParts(h, backend, fuel).calls| >= 1
    ensures FinalizeFromParts(h, backend, fuel).result.Err?
    ensures FinalizeFromParts(h, backend, fuel).calls[0] == ListParts(h.file.fileId, 1, 1000)
  {
    var next := PartsIterator.Step(backend);
    var it := PartsIterator.NewIterator(h.file.fileId);
    PartsIterator.RequestAt(backend, it, fuel, 0);
  }

  const NotAFile: Error := InvalidOperation("This file is not a file - it's most likely a 'hide' placeholder")

  /** `DownloadDataAsync()`: Present and an uploaded file (not a hide marker or an unfinished large file), then one download. */
  function DownloadData(h: FileHandle, backend: Backend): (r: Outcome<FileHandle, Stream>)
    ensures r.state == h
    ensures h.state != FileState.Present ==> r.result == Err(ThrowIfNot(h, FileState.Present).value) && r.calls == []
    ensures h.state == FileState.Present && h.file.action != FileAction.Upload ==> r.result == Err(NotAFile) && r.calls == []
    ensures h.state == FileState.Present && h.file.action == FileAction.Upload ==>
      r.result == backend.download(h.file.fileId) && r.calls == [Download(h.file.fileId)]
  {
    if ThrowIfNot(h, FileState.Present).Some? then Outcome(h, Err(ThrowIfNot(h, FileState.Present).value), [])
    else if h.file.action != FileAction.Upload then Outcome(h, Err(NotAFile), [])
    else Outcome(h, backend.download(h.file.fileId), [Download(h.file.fileId)])
  }

  /** `RefreshAsync()`: in any state, the snapshot becomes the service's current one; a failure arrives wrapped. */
  function Refresh(h: FileHandle, backend: Backend): (r: Outcome<FileHandle, ()>)
    ensures r.calls == [Call.GetFileInfo(h.file.fileId)]
    ensures r.state.state == h.state && r.state.partPool == h.partPool
    ensures backend.getFileInfo(h.file.fileId).Ok? <==> r.result.Ok?
    ensures r.result.Ok? ==> r.state.file == backend.getFileInfo(h.file.fileId).value
    ensures r.result.Err? ==> r.state == h && r.result.error == Aggregate(backend.getFileInfo(h.file.fileId).error)
  {
    var call := Call.GetFileInfo(h.file.fileId);
    match backend.getFileInfo(h.file.fileId)
    case Err(e) => Outcome(h, Err(Aggregate(e)), [call])
    case Ok(info) => Outcome(h.(file := info), Ok(()), [call])
  }

  /** `DeleteAsync()`: Present only; one delete by name and id; Deleted once the service answered. */
  function Delete(h: FileHandle, backend: Backend): (r: Outcome<FileHandle, bool>)
    ensures h.state != FileState.Present ==> r == Outcome(h, Err(ThrowIfNot(h, FileState.Present).value), [])
    ensures h.state == FileState.Present ==> r.calls == [Call.DeleteFile(h.file.fileName, h.file.fileId)]
    ensures h.state == FileState.Present ==> r.result == backend.deleteFile(h.file.fileName, h.file.fileId)
    ensures r.state.file == h.file && r.state.partPool == h.partPool
    ensures r.state.state == (if r.result.Ok? then FileState.Deleted else h.state)
  {
    if ThrowIfNot(h, FileState.Present).Some? then Outcome(h, Err(ThrowIfNot(h, FileState.Present).value), [])
    else
      var call := Call.DeleteFile(h.file.fileName, h.file.fileId);
      match backend.deleteFile(h.file.fileName, h.file.fileId)
      case Err(e) => Outcome(h, Err(e), [call])
      case Ok(b) => Outcome(h.(state := FileState.Deleted), Ok(b), [call])
  }

  /** A deleted handle refuses every state-guarded operation without contacting the service. */
  lemma DeletedIsFinal(h: FileHandle, backend: Backend, source: Stream, client: Sessions.Session)
    requires h.state == FileState.Deleted
    ensures Delete(h, backend).result.Err? && Delete(h, backend).calls == []
    ensures DownloadData(h, backend).result.Err? && DownloadData(h, backend).calls == []
    ensures UploadData(client, h, source, backend).result.Err? && UploadData(client, h, source, backend).calls == []
    ensures StartLargeFile(h, backend).result.Err? && StartLargeFile(h, backend).calls == []
  {
  }

  /**
   * The simple-file lifecycle: a new handle that uploaded successfully is
   * Present, can be downloaded, and a successful delete moves it to Deleted.
   */
  lemma UploadThenDownload(client: Sessions.Session, bucketId: string, name: NString, source: Stream, expected: NString, backend: Backend)
    requires var h := NewFile(Some(bucketId), name, false);
      UploadChecked(client, h, source, expected, backend).result.Ok?
      && UploadChecked(client, h, source, expected, backend).state.1.file.action == FileAction.Upload
    ensures var h := UploadChecked(client, NewFile(Some(bucketId), name, false), source, expected, backend).state.1;
      && h.state == FileState.Present
      && DownloadData(h, backend).calls == [Download(h.file.fileId)]
      && (Delete(h, backend).result.Ok? ==> Delete(h, backend).state.state == FileState.Deleted)
  {
  }
}
