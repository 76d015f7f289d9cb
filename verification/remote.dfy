/**
 * The remote service as seen by the library: the exceptions it can raise, the
 * endpoints it calls, and an abstract backend answering each endpoint.
 */
module Remote {
  import opened Wrappers
  import opened Text
  import opened Objects

  /** The exceptions the modelled code raises or lets through. */
  datatype Error =
    /** `InvalidOperationException` from a `ThrowIfNot` state guard. */
    | InvalidState(entity: string, name: NString, actual: string, desired: string, id: NString)
    /** Any other `InvalidOperationException`. */
    | InvalidOperation(message: string)
    | Argument(message: string)
    | ArgumentNull(message: string)
    /** `B2Exception`, carrying the HTTP status and the service's error code. */
    | B2Failure(status: int, code: NString, detail: NString)
    | MissingAuthentication(message: string)
    | JsonSerialization
    | NullReference
    | ArgumentOutOfRange
    | InvalidCast
    /** `AggregateException`: what blocking on a failed task with `.Result` throws. */
    | Aggregate(inner: Error)
    /** A listing that had not ended within the model's page bound. */
    | Unfinished

  predicate IsInvalidOperation(e: Error) {
    e.InvalidState? || e.InvalidOperation?
  }

  const HashMismatch: Error := Argument("Bad transfer - hash mismatch")

  /** The request of `UploadFile`. */
  datatype UploadRequest = UploadRequest(
    uploadUrl: NString,
    token: NString,
    source: Option<Stream>,
    sha1: NString,
    fileName: NString,
    contentType: NString,
    fileInfo: Option<map<string, string>>)

  /** The request of `UploadPart`. */
  datatype PartRequest = PartRequest(uploadUrl: NString, token: NString, partNumber: int, source: Option<Stream>, sha1: NString)

  /** One remote call, with the arguments that identify it. */
  datatype Call =
    | Authorize(accountId: NString)
    | ListBuckets(accountId: NString)
    | CreateBucket(accountId: NString, name: NString, bucketType: BucketType)
    | DeleteBucket(accountId: NString, bucketId: NString)
    | UpdateBucket(accountId: NString, bucketId: NString, bucketType: BucketType)
    | HideFile(bucketId: NString, fileName: NString)
    | GetFileInfo(fileId: NString)
    | DeleteFile(fileName: NString, fileId: NString)
    | ListFileNames(bucketId: NString, startName: NString, count: int)
    | ListFileVersions(bucketId: NString, startName: NString, startId: NString, count: int)
    | ListUnfinished(bucketId: NString, startId: NString, count: int)
    | ListParts(fileId: NString, startPart: int, count: int)
    | GetUploadUrl(scope: string)
    | GetPartUploadUrl(fileId: NString)
    | UploadFile(request: UploadRequest)
    | UploadPart(part: PartRequest)
    | StartLargeFile(bucketId: NString, fileName: NString, contentType: NString, fileInfo: Option<map<string, string>>)
    | FinishLargeFile(fileId: NString, hashes: seq<NString>)
    | Download(fileId: NString)

  /** The service: each endpoint answers a value or a failure. */
  datatype Backend = Backend(
    authorize: (NString, NString) -> Result<AuthResponse, Error>,
    listBuckets: NString -> Result<seq<BucketObject>, Error>,
    createBucket: (NString, NString, BucketType) -> Result<BucketObject, Error>,
    deleteBucket: (NString, NString) -> Result<BucketObject, Error>,
    updateBucket: (NString, NString, BucketType) -> Result<BucketObject, Error>,
    hideFile: (NString, NString) -> Result<FileInfo, Error>,
    getFileInfo: NString -> Result<FileInfo, Error>,
    deleteFile: (NString, NString) -> Result<bool, Error>,
    listFileNames: (NString, NString, int) -> Result<FileList, Error>,
    listFileVersions: (NString, NString, NString, int) -> Result<FileList, Error>,
    listUnfinished: (NString, NString, int) -> Result<UnfinishedList, Error>,
    listParts: (NString, int, int) -> Result<PartList, Error>,
    getUploadUrl: string -> Result<UploadConfig, Error>,
    getPartUploadUrl: NString -> Result<PartConfig, Error>,
    uploadFile: UploadRequest -> Result<FileInfo, Error>,
    uploadPart: PartRequest -> Result<LargeFilePart, Error>,
    /** Starting a large file, as the bucket handle receives it. */
    startLargeFile: (NString, NString, NString, Option<map<string, string>>) -> Result<UnfinishedLargeFile, Error>,
    /** Starting a large file, as the file handle receives it. */
    startLargeFileInfo: (NString, NString, NString, Option<map<string, string>>) -> Result<FileInfo, Error>,
    finishLargeFile: (NString, seq<NString>) -> Result<FileInfo, Error>,
    download: NString -> Result<Stream, Error>)

  /**
   * What a call on mutable state leaves behind: the state afterwards, what the
   * call returned or threw, and the remote calls it made, in order.
   */
  datatype Outcome<S, T> = Outcome(state: S, result: Result<T, Error>, calls: seq<Call>)
}
