/**
 * `B2FilesIterator`: the latest version of every file of a bucket, by name. The
 * cursor is the next file name; a page is the last one when the service
 * answers no next name. Every entry is stamped with the client's account id and
 * the bucket id and wrapped as a Present file handle.
 */
module FilesIterator {
  import opened Wrappers
  import opened Text
  import opened Objects
  import opened Remote
  import opened Paging
  import Files

  datatype FilesIterator = FilesIterator(bucketId: NString, current: NString, pageSize: int)

  /** The constructor: start at `startName` (null for the first file) with the default page size. */
  function NewIterator(bucketId: NString, startName: NString): (r: FilesIterator)
    ensures r.bucketId == bucketId && r.current == startName && r.pageSize == DefaultPageSize
  {
    FilesIterator(bucketId, startName, DefaultPageSize)
  }

  /** The entry as the listing hands it out: its account and bucket overwritten. */
  function Stamp(info: FileInfo, accountId: NString, bucketId: NString): (r: FileInfo)
    ensures r.accountId == accountId && r.bucketId == bucketId
    ensures r.(accountId := info.accountId, bucketId := info.bucketId) == info
  {
    info.(accountId := accountId, bucketId := bucketId)
  }

  /** The handle one listed entry becomes. */
  function Wrap(accountId: NString, bucketId: NString): FileInfo -> Files.FileHandle {
    info => Files.FromInfo(Stamp(info, accountId, bucketId))
  }

  /**
   * `GetNextPage`: one name-listing call from the cursor; the cursor becomes the
   * answered next name and the page is the last iff that is null.
   */
  function NextPage(backend: Backend, accountId: NString, it: FilesIterator): (r: Page<Files.FileHandle, FilesIterator>)
    ensures r.call == ListFileNames(it.bucketId, it.current, it.pageSize)
    ensures r.Failed? <==> backend.listFileNames(it.bucketId, it.current, it.pageSize).Err?
    ensures r.Failed? ==> r.error == Aggregate(backend.listFileNames(it.bucketId, it.current, it.pageSize).error)
    ensures r.Page? ==> var l := backend.listFileNames(it.bucketId, it.current, it.pageSize).value;
      && |r.items| == |l.files|
      && (forall i :: 0 <= i < |r.items| ==>
            && r.items[i].state == FileState.Present
            && r.items[i].file == Stamp(l.files[i], accountId, it.bucketId))
      && r.next == it.(current := l.nextFileName)
      && (r.isDone <==> l.nextFileName.None?)
  {
    var call := ListFileNames(it.bucketId, it.current, it.pageSize);
    match backend.listFileNames(it.bucketId, it.current, it.pageSize)
    case Err(e) => Failed(call, Aggregate(e))
    case Ok(l) => Page(call, Select(l.files, Wrap(accountId, it.bucketId)), l.nextFileName.None?, it.(current := l.nextFileName))
  }

  function Step(backend: Backend, accountId: NString): FilesIterator -> Page<Files.FileHandle, FilesIterator> {
    it => NextPage(backend, accountId, it)
  }

  /** The iterator fields a fetch never changes. */
  predicate SameListing(a: FilesIterator, b: FilesIterator) {
    a.bucketId == b.bucketId && a.pageSize == b.pageSize
  }

  /** A handle as this listing hands it out. */
  predicate Listed(h: Files.FileHandle, accountId: NString, bucketId: NString) {
    h.state == FileState.Present && h.file.accountId == accountId && h.file.bucketId == bucketId
  }

  lemma PagesRespect(backend: Backend, accountId: NString, it: FilesIterator)
    ensures forall t :: SameListing(t, it) ==>
      PageRespects(Step(backend, accountId)(t), (u: FilesIterator) => SameListing(u, it),
                   (h: Files.FileHandle) => Listed(h, accountId, it.bucketId))
  {
  }

  /**
   * Every file an enumeration yields is Present and carries the client's account
   * id and the iterated bucket's id, and the iterator keeps its bucket and page size.
   */
  lemma EnumerationIsStamped(backend: Backend, accountId: NString, it: FilesIterator, fuel: nat)
    ensures var run := Enumerate(Step(backend, accountId), it, fuel);
      && SameListing(run.state, it)
      && forall j :: 0 <= j < |run.items| ==> Listed(run.items[j], accountId, it.bucketId)
  {
    PagesRespect(backend, accountId, it);
    EnumerateRespects(Step(backend, accountId), it, fuel, (u: FilesIterator) => SameListing(u, it),
                      (h: Files.FileHandle) => Listed(h, accountId, it.bucketId));
  }

  /**
   * The `i`-th request lists the iterated bucket with the iterator's page size
   * from the cursor of the state it is made from: the start name first, then the
   * next name each previous answer gave.
   */
  lemma RequestAt(backend: Backend, accountId: NString, it: FilesIterator, fuel: nat, i: nat)
    requires i < |Enumerate(Step(backend, accountId), it, fuel).calls|
    ensures Enumerate(Step(backend, accountId), it, fuel).calls[i]
         == ListFileNames(it.bucketId, StateAt(Step(backend, accountId), it, i).current, it.pageSize)
    ensures i == 0 ==> StateAt(Step(backend, accountId), it, i).current == it.current
    ensures i >= 1 ==>
      var before := StateAt(Step(backend, accountId), it, i - 1).current;
      && backend.listFileNames(it.bucketId, before, it.pageSize).Ok?
      && StateAt(Step(backend, accountId), it, i).current == backend.listFileNames(it.bucketId, before, it.pageSize).value.nextFileName
  {
    var next := Step(backend, accountId);
    CallAt(next, it, fuel, i);
    PagesRespect(backend, accountId, it);
    YieldedRespects(next, it, i, (u: FilesIterator) => SameListing(u, it), (h: Files.FileHandle) => Listed(h, accountId, it.bucketId));
    assert PageAt(next, it, i) == NextPage(backend, accountId, StateAt(next, it, i));
    if i >= 1 {
      ChainAt(next, it, fuel, i);
      YieldedRespects(next, it, i - 1, (u: FilesIterator) => SameListing(u, it), (h: Files.FileHandle) => Listed(h, accountId, it.bucketId));
      assert PageAt(next, it, i - 1) == NextPage(backend, accountId, StateAt(next, it, i - 1));
    }
  }

  /**
   * An enumeration that ended on a page flagged done leaves the cursor null, so
   * enumerating the same iterator again starts over from the first file name
   * rather than from where the caller started.
   */
  lemma ReenumerationRestarts(backend: Backend, accountId: NString, it: FilesIterator, fuel: nat, again: nat)
    requires again > 0
    requires var run := Enumerate(Step(backend, accountId), it, fuel);
      run.stop.Exhausted? && PageAt(Step(backend, accountId), it, |run.calls| - 1).Page?
      && PageAt(Step(backend, accountId), it, |run.calls| - 1).isDone
    ensures var run := Enumerate(Step(backend, accountId), it, fuel);
      && run.state.current.None?
      && Enumerate(Step(backend, accountId), run.state, again).calls[0] == ListFileNames(it.bucketId, None, it.pageSize)
  {
    var next := Step(backend, accountId);
    var run := Enumerate(next, it, fuel);
    EnumerateFollowsPages(next, it, fuel);
    StateAtStep(next, it, |run.calls| - 1);
    EnumerationIsStamped(backend, accountId, it, fuel);
    assert PageAt(next, it, |run.calls| - 1) == NextPage(backend, accountId, StateAt(next, it, |run.calls| - 1));
    RequestAt(backend, accountId, run.state, again, 0);
  }
}
