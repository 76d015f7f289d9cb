/**
 * `B2LargeFilePartsIterator` (a part-number cursor where 0 means done) and the
 * ordering of part hashes by part number used when finishing a large file.
 */
module PartsIterator {
  import opened Wrappers
  import opened Text
  import opened Objects
  import opened Remote
  import opened Paging

  /** The iterator's state: the file, the next part number to ask for, the page size. */
  datatype PartsIterator = PartsIterator(fileId: NString, current: int, pageSize: int)

  /** The part number a listing starts from when the caller gives none. */
  const DefaultStartPart: int := 1

  /** The constructor (the page size starts at its default). */
  function NewIterator(fileId: NString, startNumber: int := DefaultStartPart): (r: PartsIterator)
    ensures r.fileId == fileId && r.current == startNumber && r.pageSize == DefaultPageSize
  {
    PartsIterator(fileId, startNumber, DefaultPageSize)
  }

  /**
   * `GetNextPage`: one listing call with the file id, the current part number and
   * the page size; the cursor becomes the answered next part number, the page is
   * done iff that number is 0, and the parts are returned unmodified.
   */
  function NextPage(backend: Backend, it: PartsIterator): (r: Page<LargeFilePart, PartsIterator>)
    ensures r.call == ListParts(it.fileId, it.current, it.pageSize)
    ensures r.Failed? <==> backend.listParts(it.fileId, it.current, it.pageSize).Err?
    ensures r.Failed? ==> r.error == Aggregate(backend.listParts(it.fileId, it.current, it.pageSize).error)
    ensures r.Page? ==> var l := backend.listParts(it.fileId, it.current, it.pageSize).value;
      && r.items == l.parts
      && r.next == it.(current := l.nextPartNumber)
      && (r.isDone <==> l.nextPartNumber == 0)
  {
    var call := ListParts(it.fileId, it.current, it.pageSize);
    match backend.listParts(it.fileId, it.current, it.pageSize)
    case Err(e) => Failed(call, Aggregate(e))
    case Ok(l) => Page(call, l.parts, l.nextPartNumber == 0, it.(current := l.nextPartNumber))
  }

  function Step(backend: Backend): PartsIterator -> Page<LargeFilePart, PartsIterator> {
    it => NextPage(backend, it)
  }

  /** The iterator fields a fetch never changes. */
  predicate SameListing(a: PartsIterator, b: PartsIterator) {
    a.fileId == b.fileId && a.pageSize == b.pageSize
  }

  /** Every state an enumeration reaches lists the same file with the same page size. */
  lemma ListingIsKept(backend: Backend, it: PartsIterator, i: nat)
    ensures SameListing(StateAt(Step(backend), it, i), it)
  {
    YieldedRespects(Step(backend), it, i, (t: PartsIterator) => SameListing(t, it), (p: LargeFilePart) => true);
  }

  /**
   * The `i`-th request of an enumeration names the iterator's file and page size
   * and the part number of the state it is made from: the first starts at the
   * iterator's part number and each later one at the next part number the
   * previous answer gave.
   */
  lemma RequestAt(backend: Backend, it: PartsIterator, fuel: nat, i: nat)
    requires i < |Enumerate(Step(backend), it, fuel).calls|
    ensures Enumerate(Step(backend), it, fuel).calls[i]
         == ListParts(it.fileId, StateAt(Step(backend), it, i).current, it.pageSize)
    ensures i == 0 ==> StateAt(Step(backend), it, i).current == it.current
    ensures i >= 1 ==>
      var before := StateAt(Step(backend), it, i - 1).current;
      && backend.listParts(it.fileId, before, it.pageSize).Ok?
      && StateAt(Step(backend), it, i).current == backend.listParts(it.fileId, before, it.pageSize).value.nextPartNumber
  {
    var next := Step(backend);
    CallAt(next, it, fuel, i);
    ListingIsKept(backend, it, i);
    assert PageAt(next, it, i) == NextPage(backend, StateAt(next, it, i));
    if i >= 1 {
      ChainAt(next, it, fuel, i);
      ListingIsKept(backend, it, i - 1);
      assert PageAt(next, it, i - 1) == NextPage(backend, StateAt(next, it, i - 1));
    }
  }

  /**
   * Listing every part: the enumeration must end within `fuel` pages; a failed
   * fetch is rethrown and an enumeration still going is reported as `Unfinished`.
   */
  function AllParts(backend: Backend, it: PartsIterator, fuel: nat): (r: Outcome<PartsIterator, seq<LargeFilePart>>)
    ensures var run := Enumerate(Step(backend), it, fuel);
      && r.calls == run.calls && r.state == run.state
      && (run.stop.Exhausted? <==> r.result.Ok?)
      && (r.result.Ok? ==> r.result.value == run.items)
      && (run.stop.Threw? ==> r.result == Err(run.stop.error))
      && (run.stop.Pending? ==> r.result == Err(Unfinished))
  {
    var run := Enumerate(Step(backend), it, fuel);
    match run.stop
    case Exhausted => Outcome(run.state, Ok(run.items), run.calls)
    case Threw(e) => Outcome(run.state, Err(e), run.calls)
    case Pending => Outcome(run.state, Err(Unfinished), run.calls)
  }

  // Ordering by part number (`OrderBy(s => s.PartNumber)`, a stable sort).

  predicate SortedByNumber(parts: seq<LargeFilePart>) {
    forall i, j :: 0 <= i < j < |parts| ==> parts[i].partNumber <= parts[j].partNumber
  }

  /** Inserts `p` before the first part whose number is not smaller. */
  function Insert(p: LargeFilePart, sorted: seq<LargeFilePart>): seq<LargeFilePart>
    decreases |sorted|
  {
    if |sorted| == 0 || p.partNumber <= sorted[0].partNumber then [p] + sorted
    else [sorted[0]] + Insert(p, sorted[1..])
  }

  /** Every part of `Insert(p, s)` is at least `b` when `p` and every part of `s` are. */
  lemma {:induction false} InsertBounded(p: LargeFilePart, s: seq<LargeFilePart>, b: int)
    requires b <= p.partNumber
    requires forall k :: 0 <= k < |s| ==> b <= s[k].partNumber
    ensures forall k :: 0 <= k < |Insert(p, s)| ==> b <= Insert(p, s)[k].partNumber
    decreases |s|
  {
    if |s| > 0 && p.partNumber > s[0].partNumber {
      InsertBounded(p, s[1..], b);
      var rest := Insert(p, s[1..]);
      forall k | 0 <= k < |Insert(p, s)| ensures b <= Insert(p, s)[k].partNumber {
        if k > 0 {
          assert Insert(p, s)[k] == rest[k - 1];
        }
      }
    }
  }

  /** Inserting adds exactly `p`. */
  lemma {:induction false} InsertAddsOne(p: LargeFilePart, s: seq<LargeFilePart>)
    ensures multiset(Insert(p, s)) == multiset(s) + multiset{p}
    ensures |Insert(p, s)| == |s| + 1
    decreases |s|
  {
    if |s| > 0 && p.partNumber > s[0].partNumber {
      InsertAddsOne(p, s[1..]);
      assert s == [s[0]] + s[1..];
    }
  }

  /** Inserting into a sorted sequence keeps it sorted. */
  lemma {:induction false} InsertSorted(p: LargeFilePart, sorted: seq<LargeFilePart>)
    requires SortedByNumber(sorted)
    ensures SortedByNumber(Insert(p, sorted))
    decreases |sorted|
  {
    if |sorted| > 0 && p.partNumber > sorted[0].partNumber {
      var rest := Insert(p, sorted[1..]);
      InsertSorted(p, sorted[1..]);
      InsertBounded(p, sorted[1..], sorted[0].partNumber);
      var r := [sorted[0]] + rest;
      assert r == Insert(p, sorted);
      forall i, j | 0 <= i < j < |r|
        ensures r[i].partNumber <= r[j].partNumber
      {
        assert r[j] == rest[j - 1];
        if i > 0 {
          assert r[i] == rest[i - 1];
        }
      }
    }
  }

  /** Inserting into a sorted sequence keeps it sorted and adds exactly `p`. */
  lemma InsertKeepsOrder(p: LargeFilePart, sorted: seq<LargeFilePart>)
    requires SortedByNumber(sorted)
    ensures SortedByNumber(Insert(p, sorted))
    ensures multiset(Insert(p, sorted)) == multiset(sorted) + multiset{p}
    ensures |Insert(p, sorted)| == |sorted| + 1
  {
    InsertAddsOne(p, sorted);
    InsertSorted(p, sorted);
  }

  /** The parts ordered by ascending part number. */
  function SortByNumber(parts: seq<LargeFilePart>): seq<LargeFilePart>
    decreases |parts|
  {
    if |parts| == 0 then [] else Insert(parts[0], SortByNumber(parts[1..]))
  }

  /** The ordering is sorted and is a permutation of the listing. */
  lemma {:induction false} SortOrdersAndPermutes(parts: seq<LargeFilePart>)
    ensures SortedByNumber(SortByNumber(parts))
    ensures multiset(SortByNumber(parts)) == multiset(parts)
    ensures |SortByNumber(parts)| == |parts|
    decreases |parts|
  {
    if |parts| > 0 {
      SortOrdersAndPermutes(parts[1..]);
      InsertKeepsOrder(parts[0], SortByNumber(parts[1..]));
      assert parts == [parts[0]] + parts[1..];
    }
  }

  /** The parts carrying part number `n`, in their original order. */
  function WithNumber(parts: seq<LargeFilePart>, n: int): seq<LargeFilePart>
    decreases |parts|
  {
    if |parts| == 0 then []
    else (if parts[0].partNumber == n then [parts[0]] else []) + WithNumber(parts[1..], n)
  }

  lemma {:induction false} WithNumberAppend(a: seq<LargeFilePart>, b: seq<LargeFilePart>, n: int)
    ensures WithNumber(a + b, n) == WithNumber(a, n) + WithNumber(b, n)
    decreases |a|
  {
    if |a| == 0 {
      assert a + b == b;
    } else {
      var h := if a[0].partNumber == n then [a[0]] else [];
      assert (a + b)[0] == a[0] && (a + b)[1..] == a[1..] + b;
      assert WithNumber(a + b, n) == h + WithNumber(a[1..] + b, n);
      WithNumberAppend(a[1..], b, n);
      assert WithNumber(a, n) == h + WithNumber(a[1..], n);
    }
  }

  /** In a sorted sequence whose first number exceeds `n`, nothing carries `n`. */
  lemma {:induction false} WithNumberAbove(sorted: seq<LargeFilePart>, n: int)
    requires SortedByNumber(sorted)
    requires |sorted| > 0 ==> sorted[0].partNumber > n
    ensures WithNumber(sorted, n) == []
    decreases |sorted|
  {
    if |sorted| > 0 {
      WithNumberAbove(sorted[1..], n);
    }
  }

  /** Inserting `p` puts it ahead of the parts that share its number and keeps every other group. */
  lemma {:induction false} InsertStable(p: LargeFilePart, sorted: seq<LargeFilePart>, n: int)
    requires SortedByNumber(sorted)
    ensures WithNumber(Insert(p, sorted), n) == (if p.partNumber == n then [p] else []) + WithNumber(sorted, n)
    decreases |sorted|
  {
    if |sorted| == 0 || p.partNumber <= sorted[0].partNumber {
      assert Insert(p, sorted) == [p] + sorted;
      WithNumberAppend([p], sorted, n);
    } else {
      var rest := Insert(p, sorted[1..]);
      assert Insert(p, sorted) == [sorted[0]] + rest;
      WithNumberAppend([sorted[0]], rest, n);
      InsertStable(p, sorted[1..], n);
      WithNumberAppend([sorted[0]], sorted[1..], n);
      assert sorted == [sorted[0]] + sorted[1..];
      if p.partNumber == n {
        assert sorted[0].partNumber < n;
      }
    }
  }

  /** The ordering is stable: parts with equal numbers keep their listing order. */
  lemma {:induction false} SortIsStable(parts: seq<LargeFilePart>, n: int)
    ensures WithNumber(SortByNumber(parts), n) == WithNumber(parts, n)
    decreases |parts|
  {
    if |parts| > 0 {
      SortIsStable(parts[1..], n);
      SortOrdersAndPermutes(parts[1..]);
      InsertStable(parts[0], SortByNumber(parts[1..]), n);
      WithNumberAppend([parts[0]], parts[1..], n);
      assert parts == [parts[0]] + parts[1..];
    }
  }

  /** `OrderBy(s => s.PartNumber).Select(s => s.ContentSha1)`. */
  function OrderedHashes(parts: seq<LargeFilePart>): (r: seq<NString>)
    ensures |r| == |SortByNumber(parts)| == |parts|
    ensures forall i :: 0 <= i < |r| ==> r[i] == SortByNumber(parts)[i].contentSha1
  {
    SortOrdersAndPermutes(parts);
    var sorted := SortByNumber(parts);
    seq(|sorted|, i requires 0 <= i < |sorted| => sorted[i].contentSha1)
  }

  /** Every listed part's hash is sent exactly as often as the part was listed. */
  lemma HashesArePermuted(parts: seq<LargeFilePart>, p: LargeFilePart)
    ensures multiset(SortByNumber(parts))[p] == multiset(parts)[p]
  {
    SortOrdersAndPermutes(parts);
  }

  /** Parts listed as 3, 1, 2 are finished with the hashes of parts 1, 2, 3 in that order. */
  lemma OutOfOrderListingExample(id: NString)
    ensures var p1 := LargeFilePart(id, 1, 10, Some("h1"), 0);
      var p2 := LargeFilePart(id, 2, 10, Some("h2"), 0);
      var p3 := LargeFilePart(id, 3, 10, Some("h3"), 0);
      OrderedHashes([p3, p1, p2]) == [Some("h1"), Some("h2"), Some("h3")]
  {
    var p1 := LargeFilePart(id, 1, 10, Some("h1"), 0);
    var p2 := LargeFilePart(id, 2, 10, Some("h2"), 0);
    var p3 := LargeFilePart(id, 3, 10, Some("h3"), 0);
    assert [p1, p2][1..] == [p2];
    assert [p3, p1, p2][1..] == [p1, p2];
    assert SortByNumber([p2]) == [p2];
    assert Insert(p1, [p2]) == [p1, p2];
    assert SortByNumber([p1, p2]) == [p1, p2];
    assert Insert(p3, [p2]) == [p2] + Insert(p3, []);
    assert Insert(p3, [p1, p2]) == [p1] + Insert(p3, [p2]);
    assert SortByNumber([p3, p1, p2]) == [p1, p2, p3];
  }
}
