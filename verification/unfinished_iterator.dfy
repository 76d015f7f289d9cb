/**
 * `B2UnfinishedLargeFilesIterator`: the unfinished large files of a bucket,
 * by id. The cursor is the next file id; a page is the last one when the
 * service answers no next id. Entries are handed out unstamped, each wrapped by
 * the caller's choice of handle.
 */
module UnfinishedIterator {
  import opened Wrappers
  import opened Text
  import opened Objects
  import opened Remote
  import opened Paging

  datatype UnfinishedIterator = UnfinishedIterator(bucketId: NString, currentId: NString, pageSize: int)

  function NewIterator(bucketId: NString, startId: NString): (r: UnfinishedIterator)
    ensures r.bucketId == bucketId && r.currentId == startId && r.pageSize == DefaultPageSize
  {
    UnfinishedIterator(bucketId, startId, DefaultPageSize)
  }

  /**
   * `GetNextPage`: one unfinished-listing call from the cursor; the cursor becomes
   * the answered next id and the page is the last iff that is null; every entry
   * is wrapped with `wrap`, in order.
   */
  function NextPage<T>(backend: Backend, wrap: UnfinishedLargeFile -> T, it: UnfinishedIterator): (r: Page<T, UnfinishedIterator>)
    ensures r.call == ListUnfinished(it.bucketId, it.currentId, it.pageSize)
    ensures r.Failed? <==> backend.listUnfinished(it.bucketId, it.currentId, it.pageSize).Err?
    ensures r.Failed? ==> r.error == Aggregate(backend.listUnfinished(it.bucketId, it.currentId, it.pageSize).error)
    ensures r.Page? ==> var l := backend.listUnfinished(it.bucketId, it.currentId, it.pageSize).value;
      && |r.items| == |l.files|
      && (forall i :: 0 <= i < |r.items| ==> r.items[i] == wrap(l.files[i]))
      && r.next == it.(currentId := l.nextFileId)
      && (r.isDone <==> l.nextFileId.None?)
  {
    var call := ListUnfinished(it.bucketId, it.currentId, it.pageSize);
    match backend.listUnfinished(it.bucketId, it.currentId, it.pageSize)
    case Err(e) => Failed(call, Aggregate(e))
    case Ok(l) => Page(call, Select(l.files, wrap), l.nextFileId.None?, it.(currentId := l.nextFileId))
  }

  function Step<T>(backend: Backend, wrap: UnfinishedLargeFile -> T): UnfinishedIterator -> Page<T, UnfinishedIterator> {
    it => NextPage(backend, wrap, it)
  }

  predicate SameListing(a: UnfinishedIterator, b: UnfinishedIterator) {
    a.bucketId == b.bucketId && a.pageSize == b.pageSize
  }

  lemma PagesKeepListing<T>(backend: Backend, wrap: UnfinishedLargeFile -> T, it: UnfinishedIterator)
    ensures forall t :: SameListing(t, it) ==>
      PageRespects(Step(backend, wrap)(t), (u: UnfinishedIterator) => SameListing(u, it), (x: T) => true)
  {
  }

  /**
   * The `i`-th request lists the iterated bucket from the cursor of the state it
   * is made from: the start id first, then the next id each previous answer gave.
   */
  lemma RequestAt<T>(backend: Backend, wrap: UnfinishedLargeFile -> T, it: UnfinishedIterator, fuel: nat, i: nat)
    requires i < |Enumerate(Step(backend, wrap), it, fuel).calls|
    ensures Enumerate(Step(backend, wrap), it, fuel).calls[i]
         == ListUnfinished(it.bucketId, StateAt(Step(backend, wrap), it, i).currentId, it.pageSize)
    ensures i == 0 ==> StateAt(Step(backend, wrap), it, i).currentId == it.currentId
    ensures i >= 1 ==>
      var before := StateAt(Step(backend, wrap), it, i - 1).currentId;
      && backend.listUnfinished(it.bucketId, before, it.pageSize).Ok?
      && StateAt(Step(backend, wrap), it, i).currentId == backend.listUnfinished(it.bucketId, before, it.pageSize).value.nextFileId
  {
    var next := Step(backend, wrap);
    CallAt(next, it, fuel, i);
    PagesKeepListing(backend, wrap, it);
    YieldedRespects(next, it, i, (u: UnfinishedIterator) => SameListing(u, it), (x: T) => true);
    assert PageAt(next, it, i) == NextPage(backend, wrap, StateAt(next, it, i));
    if i >= 1 {
      ChainAt(next, it, fuel, i);
      YieldedRespects(next, it, i - 1, (u: UnfinishedIterator) => SameListing(u, it), (x: T) => true);
      assert PageAt(next, it, i - 1) == NextPage(backend, wrap, StateAt(next, it, i - 1));
    }
  }

  /**
   * `FirstOrDefault` with a page size of one: a single request for one entry
   * starting at `startId`, answering the wrapped first entry if there is one.
   */
  lemma FirstOfOnePage<T>(backend: Backend, wrap: UnfinishedLargeFile -> T, bucketId: NString, startId: NString)
    ensures var it := NewIterator(bucketId, startId).(pageSize := 1);
      var run := FirstOrDefault(Step(backend, wrap), it);
      var answer := backend.listUnfinished(bucketId, startId, 1);
      && run.calls == [ListUnfinished(bucketId, startId, 1)]
      && (run.stop.Threw? <==> answer.Err?)
      && (answer.Ok? && |answer.value.files| > 0 ==> run.items == [wrap(answer.value.files[0])])
      && (answer.Ok? && |answer.value.files| == 0 ==> run.items == [])
  {
    var it := NewIterator(bucketId, startId).(pageSize := 1);
    CallAt(Step(backend, wrap), it, 1, 0);
    assert PageAt(Step(backend, wrap), it, 0) == NextPage(backend, wrap, it);
  }
}
