/**
 * `B2FileVersionsIterator`: every version of every file of a bucket. The cursor
 * is a (name, id) pair and a page is the last one only when the service answers
 * neither a next name nor a next id. Entries are stamped with the client's
 * account id and the bucket id; an entry whose action is `start` (an unfinished
 * large file) becomes a large-file handle, any other a file handle.
 */
module VersionsIterator {
  import opened Wrappers
  import opened Text
  import opened Objects
  import opened Remote
  import opened Paging
  import Files
  import LargeFiles
  import FilesIterator

  datatype VersionsIterator = VersionsIterator(bucketId: NString, currentName: NString, currentId: NString, pageSize: int)

  /** What the listing yields (`B2FileItemBase`): an ordinary file or an unfinished large file. */
  datatype VersionItem =
    | FileItem(file: Files.FileHandle)
    | LargeItem(large: LargeFiles.LargeFileHandle)

  function NewIterator(bucketId: NString, startName: NString, startId: NString): (r: VersionsIterator)
    ensures r.bucketId == bucketId && r.currentName == startName && r.currentId == startId
    ensures r.pageSize == DefaultPageSize
  {
    VersionsIterator(bucketId, startName, startId, DefaultPageSize)
  }

  /** The item one listed entry becomes. */
  function Wrap(accountId: NString, bucketId: NString): FileInfo -> VersionItem {
    info =>
      var stamped := FilesIterator.Stamp(info, accountId, bucketId);
      if stamped.action == Start then LargeItem(LargeFiles.FromUnfinished(LargeFiles.UnfinishedOf(stamped)))
      else FileItem(Files.FromInfo(stamped))
  }

  /** The id, name, account and bucket every item exposes. */
  function IdOf(v: VersionItem): NString {
    match v
    case FileItem(f) => f.file.fileId
    case LargeItem(l) => l.file.fileId
  }

  function AccountOf(v: VersionItem): NString {
    match v
    case FileItem(f) => f.file.accountId
    case LargeItem(l) => l.file.accountId
  }

  function BucketOf(v: VersionItem): NString {
    match v
    case FileItem(f) => f.file.bucketId
    case LargeItem(l) => l.file.bucketId
  }

  /**
   * `GetNextPage`: one version-listing call from the (name, id) cursor; the
   * cursor becomes the answered pair, and the page is the last iff both are null.
   */
  function NextPage(backend: Backend, accountId: NString, it: VersionsIterator): (r: Page<VersionItem, VersionsIterator>)
    ensures r.call == ListFileVersions(it.bucketId, it.currentName, it.currentId, it.pageSize)
    ensures r.Failed? <==> backend.listFileVersions(it.bucketId, it.currentName, it.currentId, it.pageSize).Err?
    ensures r.Failed? ==> r.error == Aggregate(backend.listFileVersions(it.bucketId, it.currentName, it.currentId, it.pageSize).error)
    ensures r.Page? ==> var l := backend.listFileVersions(it.bucketId, it.currentName, it.currentId, it.pageSize).value;
      && |r.items| == |l.files|
      && (forall i :: 0 <= i < |r.items| ==>
            && r.items[i] == Wrap(accountId, it.bucketId)(l.files[i])
            && (r.items[i].LargeItem? <==> l.files[i].action == Start)
            && IdOf(r.items[i]) == l.files[i].fileId
            && AccountOf(r.items[i]) == accountId && BucketOf(r.items[i]) == it.bucketId)
      && r.next == it.(currentName := l.nextFileName, currentId := l.nextFileId)
      && (r.isDone <==> l.nextFileName.None? && l.nextFileId.None?)
  {
    var call := ListFileVersions(it.bucketId, it.currentName, it.currentId, it.pageSize);
    match backend.listFileVersions(it.bucketId, it.currentName, it.currentId, it.pageSize)
    case Err(e) => Failed(call, Aggregate(e))
    case Ok(l) =>
      Page(call, Select(l.files, Wrap(accountId, it.bucketId)), l.nextFileName.None? && l.nextFileId.None?,
           it.(currentName := l.nextFileName, currentId := l.nextFileId))
  }

  function Step(backend: Backend, accountId: NString): VersionsIterator -> Page<VersionItem, VersionsIterator> {
    it => NextPage(backend, accountId, it)
  }

  predicate SameListing(a: VersionsIterator, b: VersionsIterator) {
    a.bucketId == b.bucketId && a.pageSize == b.pageSize
  }

  /** An item as this listing hands it out: a large file is always New, a file always Present. */
  predicate Listed(v: VersionItem, accountId: NString, bucketId: NString) {
    && AccountOf(v) == accountId && BucketOf(v) == bucketId
    && (v.FileItem? ==> v.file.state == FileState.Present && v.file.file.action != Start)
    && (v.LargeItem? ==> v.large.state == LargeFileState.New && v.large.file.action == Start)
  }

  lemma PagesRespect(backend: Backend, accountId: NString, it: VersionsIterator)
    ensures forall t :: SameListing(t, it) ==>
      PageRespects(Step(backend, accountId)(t), (u: VersionsIterator) => SameListing(u, it),
                   (v: VersionItem) => Listed(v, accountId, it.bucketId))
  {
  }

  /**
   * Every version an enumeration yields carries the client's account id and the
   * iterated bucket's id; unfinished large files come out as New large-file
   * handles and everything else as Present file handles.
   */
  lemma EnumerationIsStamped(backend: Backend, accountId: NString, it: VersionsIterator, fuel: nat)
    ensures var run := Enumerate(Step(backend, accountId), it, fuel);
      && SameListing(run.state, it)
      && forall j :: 0 <= j < |run.items| ==> Listed(run.items[j], accountId, it.bucketId)
  {
    PagesRespect(backend, accountId, it);
    EnumerateRespects(Step(backend, accountId), it, fuel, (u: VersionsIterator) => SameListing(u, it),
                      (v: VersionItem) => Listed(v, accountId, it.bucketId));
  }

  /**
   * The `i`-th request lists the iterated bucket from the cursor pair of the
   * state it is made from: the start pair first, then the pair each previous
   * answer gave.
   */
  lemma RequestAt(backend: Backend, accountId: NString, it: VersionsIterator, fuel: nat, i: nat)
    requires i < |Enumerate(Step(backend, accountId), it, fuel).calls|
    ensures var s := StateAt(Step(backend, accountId), it, i);
      Enumerate(Step(backend, accountId), it, fuel).calls[i] == ListFileVersions(it.bucketId, s.currentName, s.currentId, it.pageSize)
    ensures i == 0 ==> StateAt(Step(backend, accountId), it, i) == it
    ensures i >= 1 ==>
      var before := StateAt(Step(backend, accountId), it, i - 1);
      var answer := backend.listFileVersions(it.bucketId, before.currentName, before.currentId, it.pageSize);
      && answer.Ok?
      && StateAt(Step(backend, accountId), it, i).currentName == answer.value.nextFileName
      && StateAt(Step(backend, accountId), it, i).currentId == answer.value.nextFileId
  {
    var next := Step(backend, accountId);
    CallAt(next, it, fuel, i);
    PagesRespect(backend, accountId, it);
    YieldedRespects(next, it, i, (u: VersionsIterator) => SameListing(u, it), (v: VersionItem) => Listed(v, accountId, it.bucketId));
    assert PageAt(next, it, i) == NextPage(backend, accountId, StateAt(next, it, i));
    if i >= 1 {
      ChainAt(next, it, fuel, i);
      YieldedRespects(next, it, i - 1, (u: VersionsIterator) => SameListing(u, it), (v: VersionItem) => Listed(v, accountId, it.bucketId));
      assert PageAt(next, it, i - 1) == NextPage(backend, accountId, StateAt(next, it, i - 1));
    }
  }

  /**
   * A page that answers a next id but no next name is not the last one: the
   * listing continues (from a null name and that id) as long as the page had entries.
   */
  lemma IdAloneContinues(backend: Backend, accountId: NString, it: VersionsIterator)
    requires backend.listFileVersions(it.bucketId, it.currentName, it.currentId, it.pageSize).Ok?
    requires var l := backend.listFileVersions(it.bucketId, it.currentName, it.currentId, it.pageSize).value;
      l.nextFileName.None? && l.nextFileId.Some? && |l.files| > 0
    ensures Continues(NextPage(backend, accountId, it))
    ensures NextPage(backend, accountId, it).next.currentName.None?
  {
  }
}
