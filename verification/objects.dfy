/** The library's plain data classes and enumerations, as immutable values. */
module Objects {
  import opened Wrappers
  import opened Text

  datatype BucketType = AllPrivate | AllPublic

  /**
   * `B2FileAction`. A freshly built `B2FileInfo` carries the enumeration's default
   * value, taken here to be `Upload` (any value other than `Start` behaves the same).
   */
  datatype FileAction = Upload | Hide | Start

  const DefaultAction: FileAction := Upload

  datatype BucketState = Present | Deleted

  datatype FileState = New | Present | Deleted

  /** `B2LargeFileState`; its default value (the state of an unassigned field) is `New`. */
  datatype LargeFileState = New | Finished

  /** An opaque data stream (content, position and disposal are not modelled). */
  datatype Stream = Stream(handle: nat)

  /** `B2BucketObject` (the `B2Bucket` data class of the older client revision). */
  datatype BucketObject = BucketObject(
    bucketId: NString,
    accountId: NString,
    bucketName: NString,
    bucketType: BucketType)

  /** `B2BucketCache`: one cached bucket. */
  datatype BucketCache = BucketCache(
    bucketId: NString,
    bucketName: NString,
    bucketType: BucketType,
    accountId: NString)

  /** `B2FileInfo` (upload timestamps in milliseconds since the Unix epoch). */
  datatype FileInfo = FileInfo(
    action: FileAction,
    fileId: NString,
    fileName: NString,
    uploadTimestamp: int,
    accountId: NString,
    contentSha1: NString,
    bucketId: NString,
    contentLength: int,
    contentType: NString,
    fileInfo: Option<map<string, string>>)

  /** A `B2FileInfo` with every field at its default value. */
  const EmptyFileInfo: FileInfo :=
    FileInfo(DefaultAction, None, None, 0, None, None, None, 0, None, None)

  /** `B2UnfinishedLargeFile`. */
  datatype UnfinishedLargeFile = UnfinishedLargeFile(
    action: FileAction,
    fileId: NString,
    fileName: NString,
    uploadTimestamp: int,
    accountId: NString,
    bucketId: NString,
    contentType: NString,
    fileInfo: Option<map<string, string>>)

  /** `B2LargeFilePart`. */
  datatype LargeFilePart = LargeFilePart(
    fileId: NString,
    partNumber: int,
    contentLength: int,
    contentSha1: NString,
    uploadTimestamp: int)

  /** `B2UploadConfiguration`: a bucket-scoped upload credential. */
  datatype UploadConfig = UploadConfig(bucketId: NString, uploadUrl: NString, authorizationToken: NString)

  /** `B2UploadPartConfiguration`: a large-file-scoped part upload credential. */
  datatype PartConfig = PartConfig(fileId: NString, uploadUrl: NString, authorizationToken: NString)

  /** `B2FileListContainer`: one page of a file-name or file-version listing. */
  datatype FileList = FileList(files: seq<FileInfo>, nextFileName: NString, nextFileId: NString)

  /** `B2UnfinishedLargeFilesContainer`. */
  datatype UnfinishedList = UnfinishedList(files: seq<UnfinishedLargeFile>, nextFileId: NString)

  /** `B2LargeFilePartsContainer` (its `NexPartNumber` is 0 once the listing is complete). */
  datatype PartList = PartList(parts: seq<LargeFilePart>, nextPartNumber: int)

  /** `B2AuthenticationResponse`. */
  datatype AuthResponse = AuthResponse(accountId: NString, authorizationToken: NString, apiUrl: NString, downloadUrl: NString)
}
