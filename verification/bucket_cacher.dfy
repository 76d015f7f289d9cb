/**
 * `B2BucketCacher`: a list of cached buckets with insert-or-update by id,
 * `SingleOrDefault` lookups by id or name, removal by id, and state transfer.
 */
module BucketCacher {
  import opened Wrappers
  import opened Text
  import opened Objects
  import opened Remote
  import BucketCacheEntry

  type Cache = seq<BucketCache>

  /** The predicate a lookup matches entries with. */
  datatype Key = ById(id: NString) | ByName(name: NString)

  predicate Matches(c: BucketCache, k: Key) {
    match k
    case ById(id) => c.bucketId == id
    case ByName(name) => c.bucketName == name
  }

  /** The number of entries a key matches. */
  function Count(cache: Cache, k: Key): nat {
    if |cache| == 0 then 0
    else (if Matches(cache[0], k) then 1 else 0) + Count(cache[1..], k)
  }

  lemma {:induction false} CountAppend(a: Cache, b: Cache, k: Key)
    ensures Count(a + b, k) == Count(a, k) + Count(b, k)
    decreases |a|
  {
    if |a| == 0 {
      assert a + b == b;
    } else {
      assert (a + b)[1..] == a[1..] + b;
      CountAppend(a[1..], b, k);
    }
  }

  lemma {:induction false} CountMember(cache: Cache, k: Key, i: nat)
    requires i < |cache| && Matches(cache[i], k)
    ensures Count(cache, k) >= 1
    decreases i
  {
    if i > 0 {
      CountMember(cache[1..], k, i - 1);
    }
  }

  lemma {:induction false} CountZero(cache: Cache, k: Key)
    requires forall i :: 0 <= i < |cache| ==> !Matches(cache[i], k)
    ensures Count(cache, k) == 0
    decreases |cache|
  {
    if |cache| > 0 {
      CountZero(cache[1..], k);
    }
  }

  const MoreThanOneMatch: Error := InvalidOperation("Sequence contains more than one matching element")

  /**
   * `SingleOrDefault`: null when nothing matches, the match when exactly one
   * entry matches, and an `InvalidOperationException` when more than one does.
   */
  function Single(cache: Cache, k: Key): (r: Result<Option<BucketCache>, Error>)
    ensures r.Err? <==> Count(cache, k) >= 2
    ensures r.Err? ==> r.error == MoreThanOneMatch
    ensures r == Ok(None) <==> Count(cache, k) == 0
    ensures r.Ok? && r.value.Some? ==> r.value.value in cache && Matches(r.value.value, k)
  {
    if |cache| == 0 then Ok(None)
    else
      var rest := Single(cache[1..], k);
      if !Matches(cache[0], k) then rest
      else if rest.Err? || rest.value.Some? then Err(MoreThanOneMatch)
      else Ok(Some(cache[0]))
  }

  /** `GetById` (the public overload): a lookup that never changes the cache. */
  function GetById(cache: Cache, id: NString): (r: Result<Option<BucketCache>, Error>)
    ensures r.Err? <==> Count(cache, ById(id)) >= 2
    ensures r == Ok(None) <==> Count(cache, ById(id)) == 0
    ensures r.Ok? && r.value.Some? ==> r.value.value in cache && r.value.value.bucketId == id
  {
    Single(cache, ById(id))
  }

  /** `GetByName`. */
  function GetByName(cache: Cache, name: NString): (r: Result<Option<BucketCache>, Error>)
    ensures r.Err? <==> Count(cache, ByName(name)) >= 2
    ensures r == Ok(None) <==> Count(cache, ByName(name)) == 0
    ensures r.Ok? && r.value.Some? ==> r.value.value in cache && r.value.value.bucketName == name
  {
    Single(cache, ByName(name))
  }

  /** At most one entry per bucket id. */
  predicate UniqueIds(cache: Cache) {
    forall i, j :: 0 <= i < j < |cache| ==> cache[i].bucketId != cache[j].bucketId
  }

  lemma {:induction false} UniqueCountsAtMostOne(cache: Cache, id: NString)
    requires UniqueIds(cache)
    ensures Count(cache, ById(id)) <= 1
    decreases |cache|
  {
    if |cache| > 0 {
      assert UniqueIds(cache[1..]) by {
        forall i, j | 0 <= i < j < |cache[1..]|
          ensures cache[1..][i].bucketId != cache[1..][j].bucketId
        {
          assert cache[1..][i] == cache[i + 1] && cache[1..][j] == cache[j + 1];
        }
      }
      UniqueCountsAtMostOne(cache[1..], id);
      if cache[0].bucketId == id {
        CountZero(cache[1..], ById(id));
      }
    }
  }

  /** On a cache with unique ids, a lookup by id never throws. */
  lemma UniqueLookupSucceeds(cache: Cache, id: NString)
    requires UniqueIds(cache)
    ensures GetById(cache, id).Ok?
  {
    UniqueCountsAtMostOne(cache, id);
  }

  /** The position of the first entry a key matches. */
  function IndexOf(cache: Cache, k: Key): (i: nat)
    requires Count(cache, k) >= 1
    ensures i < |cache| && Matches(cache[i], k)
    ensures forall j :: 0 <= j < i ==> !Matches(cache[j], k)
  {
    if Matches(cache[0], k) then 0 else 1 + IndexOf(cache[1..], k)
  }

  /** The entry `RecordBucket` adds for an id it has not seen: only id and name set. */
  function FreshEntry(b: BucketObject): BucketCache {
    BucketCache(b.bucketId, b.bucketName, AllPrivate, None)
  }

  /**
   * `RecordBucket(B2BucketObject)`: looks the id up (creating an entry when it is
   * absent) and writes the bucket's id and name into that entry. Type and account
   * id of an existing entry are left as they were; every other entry is untouched.
   */
  function RecordBucket(cache: Cache, b: BucketObject): (r: Result<(Cache, BucketCache), Error>)
    ensures r.Err? <==> Count(cache, ById(b.bucketId)) >= 2
    ensures r.Ok? ==> r.value.1.bucketId == b.bucketId && r.value.1.bucketName == b.bucketName
    ensures r.Ok? && Count(cache, ById(b.bucketId)) == 0 ==> r.value.0 == cache + [FreshEntry(b)]
    ensures r.Ok? && Count(cache, ById(b.bucketId)) == 1 ==>
      && |r.value.0| == |cache|
      && forall i :: 0 <= i < |cache| ==>
           r.value.0[i] == if cache[i].bucketId == b.bucketId then cache[i].(bucketName := b.bucketName) else cache[i]
  {
    match GetById(cache, b.bucketId)
    case Err(e) => Err(e)
    case Ok(None) =>
      var item := FreshEntry(b);
      Ok((cache + [item], item))
    case Ok(Some(_)) =>
      var i := IndexOf(cache, ById(b.bucketId));
      assert forall j :: 0 <= j < |cache| && j != i ==> cache[j].bucketId != b.bucketId by {
        forall j | 0 <= j < |cache| && j != i && cache[j].bucketId == b.bucketId
          ensures false
        {
          OtherMatchMeansTwo(cache, ById(b.bucketId), i, j);
        }
      }
      var item := cache[i].(bucketId := b.bucketId, bucketName := b.bucketName);
      Ok((cache[i := item], item))
  }

  lemma {:induction false} OtherMatchMeansTwo(cache: Cache, k: Key, i: nat, j: nat)
    requires i < |cache| && j < |cache| && i != j
    requires Matches(cache[i], k) && Matches(cache[j], k)
    ensures Count(cache, k) >= 2
  {
    var lo := if i < j then i else j;
    var hi := if i < j then j else i;
    assert cache == cache[..hi] + cache[hi..];
    CountAppend(cache[..hi], cache[hi..], k);
    CountMember(cache[..hi], k, lo);
    CountMember(cache[hi..], k, 0);
  }

  /** After `RecordBucket(b)`, looking its id up finds the recorded entry. */
  lemma {:induction false} RecordThenGet(cache: Cache, b: BucketObject)
    requires RecordBucket(cache, b).Ok?
    ensures GetById(RecordBucket(cache, b).value.0, b.bucketId) == Ok(Some(RecordBucket(cache, b).value.1))
  {
    var r := RecordBucket(cache, b).value;
    var k := ById(b.bucketId);
    var at: nat;
    if Count(cache, k) == 0 {
      at := |cache|;
      assert r.0 == cache + [r.1];
    } else {
      at := IndexOf(cache, k);
    }
    assert at < |r.0| && r.0[at] == r.1;
    assert forall j :: 0 <= j < |r.0| && j != at ==> !Matches(r.0[j], k) by {
      forall j | 0 <= j < |r.0| && j != at && Matches(r.0[j], k)
        ensures false
      {
        assert j < |cache| && r.0[j] == cache[j];
        if Count(cache, k) == 0 {
          CountMember(cache, k, j);
        } else {
          OtherMatchMeansTwo(cache, k, at, j);
        }
      }
    }
    CountMember(r.0, k, at);
    if Count(r.0, k) >= 2 {
      assert r.0 == r.0[..at] + [r.1] + r.0[at + 1..];
      CountAppend(r.0[..at] + [r.1], r.0[at + 1..], k);
      CountAppend(r.0[..at], [r.1], k);
      assert [r.1][1..] == [];
      CountZero(r.0[..at], k);
      CountZero(r.0[at + 1..], k);
    }
    var x := GetById(r.0, b.bucketId).value.value;
    var m :| 0 <= m < |r.0| && r.0[m] == x;
  }

  /** `RecordBucket` keeps the cache free of duplicate ids. */
  lemma RecordKeepsIdsUnique(cache: Cache, b: BucketObject)
    requires UniqueIds(cache)
    ensures RecordBucket(cache, b).Ok?
    ensures UniqueIds(RecordBucket(cache, b).value.0)
  {
    UniqueCountsAtMostOne(cache, b.bucketId);
    var r := RecordBucket(cache, b).value.0;
    if Count(cache, ById(b.bucketId)) == 0 {
      forall i | 0 <= i < |cache|
        ensures cache[i].bucketId != b.bucketId
      {
        if cache[i].bucketId == b.bucketId {
          CountMember(cache, ById(b.bucketId), i);
        }
      }
    }
  }

  /**
   * `RecordBucket(IEnumerable<B2BucketObject>)`: records each bucket in order and
   * stops at the first one that throws, keeping what was recorded before it.
   */
  function RecordBuckets(cache: Cache, buckets: seq<BucketObject>): (r: Outcome<Cache, ()>)
    ensures r.calls == []
    ensures |r.state| >= |cache|
    decreases |buckets|
  {
    if |buckets| == 0 then Outcome(cache, Ok(()), [])
    else match RecordBucket(cache, buckets[0])
      case Err(e) => Outcome(cache, Err(e), [])
      case Ok((cache', _)) => RecordBuckets(cache', buckets[1..])
  }

  /** When the whole list is recorded, every listed bucket id is cached afterwards. */
  lemma {:induction false} RecordBucketsCachesAll(cache: Cache, buckets: seq<BucketObject>)
    requires RecordBuckets(cache, buckets).result.Ok?
    ensures forall i :: 0 <= i < |buckets| ==> Count(RecordBuckets(cache, buckets).state, ById(buckets[i].bucketId)) >= 1
    decreases |buckets|
  {
    if |buckets| > 0 {
      var cache' := RecordBucket(cache, buckets[0]).value.0;
      RecordThenGet(cache, buckets[0]);
      RecordsStayPresent(cache', buckets[1..], buckets[0].bucketId);
      RecordBucketsCachesAll(cache', buckets[1..]);
      forall i | 1 <= i < |buckets|
        ensures Count(RecordBuckets(cache, buckets).state, ById(buckets[i].bucketId)) >= 1
      {
        assert buckets[i] == buckets[1..][i - 1];
      }
    }
  }

  /** Recording a listing into a cache without duplicate ids always succeeds and keeps it so. */
  lemma {:induction false} RecordBucketsKeepsUnique(cache: Cache, buckets: seq<BucketObject>)
    requires UniqueIds(cache)
    ensures RecordBuckets(cache, buckets).result.Ok?
    ensures UniqueIds(RecordBuckets(cache, buckets).state)
    decreases |buckets|
  {
    if |buckets| > 0 {
      RecordKeepsIdsUnique(cache, buckets[0]);
      RecordBucketsKeepsUnique(RecordBucket(cache, buckets[0]).value.0, buckets[1..]);
    }
  }

  /** Recording more buckets never removes an id that is already cached. */
  lemma {:induction false} RecordsStayPresent(cache: Cache, buckets: seq<BucketObject>, id: NString)
    requires Count(cache, ById(id)) >= 1
    ensures Count(RecordBuckets(cache, buckets).state, ById(id)) >= 1
    decreases |buckets|
  {
    if |buckets| > 0 {
      match RecordBucket(cache, buckets[0])
      case Err(_) =>
      case Ok((cache', _)) =>
        RecordKeepsId(cache, buckets[0], id);
        RecordsStayPresent(cache', buckets[1..], id);
    }
  }

  lemma RecordKeepsId(cache: Cache, b: BucketObject, id: NString)
    requires Count(cache, ById(id)) >= 1
    requires RecordBucket(cache, b).Ok?
    ensures Count(RecordBucket(cache, b).value.0, ById(id)) >= 1
  {
    var r := RecordBucket(cache, b).value.0;
    var i := IndexOf(cache, ById(id));
    if Count(cache, ById(b.bucketId)) == 0 {
      assert r[i] == cache[i];
    } else {
      assert r[i].bucketId == cache[i].bucketId;
    }
    CountMember(r, ById(id), i);
  }

  /**
   * The entries whose id differs from `id`, in cache order. A reference filter
   * that walks the cache from its last entry backwards.
   */
  function Keep(cache: Cache, id: NString): Cache
    decreases |cache|
  {
    if |cache| == 0 then []
    else
      var init := Keep(cache[..|cache| - 1], id);
      if cache[|cache| - 1].bucketId == id then init else init + [cache[|cache| - 1]]
  }

  /** Filtering a cache with one more entry in front. */
  lemma {:induction false} KeepCons(x: BucketCache, t: Cache, id: NString)
    ensures Keep([x] + t, id) == (if x.bucketId == id then [] else [x]) + Keep(t, id)
    decreases |t|
  {
    if |t| > 0 {
      var t' := t[..|t| - 1];
      assert ([x] + t)[..|[x] + t| - 1] == [x] + t';
      assert ([x] + t)[|[x] + t| - 1] == t[|t| - 1];
      KeepCons(x, t', id);
    }
  }

  /**
   * `RemoveBucket`: `RemoveAll` of the entries with the bucket's id. Every other
   * entry stays, in its order and with its number of copies.
   */
  function RemoveBucket(cache: Cache, b: BucketObject): (r: Cache)
    ensures Count(r, ById(b.bucketId)) == 0
    ensures |r| == |cache| - Count(cache, ById(b.bucketId))
    ensures forall c :: c in r <==> c in cache && c.bucketId != b.bucketId
    decreases |cache|
  {
    if |cache| == 0 then []
    else
      var rest := RemoveBucket(cache[1..], b);
      assert forall c :: c in cache <==> c == cache[0] || c in cache[1..];
      if cache[0].bucketId == b.bucketId then rest else [cache[0]] + rest
  }

  /** Removal is the reference filter: exactly the entries with another id, in cache order. */
  lemma {:induction false} RemoveIsKeep(cache: Cache, b: BucketObject)
    ensures RemoveBucket(cache, b) == Keep(cache, b.bucketId)
    decreases |cache|
  {
    if |cache| > 0 {
      RemoveIsKeep(cache[1..], b);
      assert cache == [cache[0]] + cache[1..];
      KeepCons(cache[0], cache[1..], b.bucketId);
    }
  }

  /** Removal keeps every other entry with its number of copies and drops every copy with the id. */
  lemma {:induction false} RemoveKeepsCopies(cache: Cache, b: BucketObject)
    ensures forall c :: multiset(RemoveBucket(cache, b))[c] == if c.bucketId == b.bucketId then 0 else multiset(cache)[c]
    decreases |cache|
  {
    if |cache| > 0 {
      RemoveKeepsCopies(cache[1..], b);
      assert cache == [cache[0]] + cache[1..];
      assert multiset(cache) == multiset{cache[0]} + multiset(cache[1..]);
    }
  }

  /** Removing an id that is not cached leaves the cache as it was. */
  lemma {:induction false} RemoveAbsentIsIdentity(cache: Cache, b: BucketObject)
    requires Count(cache, ById(b.bucketId)) == 0
    ensures RemoveBucket(cache, b) == cache
    decreases |cache|
  {
    if |cache| > 0 {
      RemoveAbsentIsIdentity(cache[1..], b);
    }
  }

  /** `GetState`: field-equal copies of every entry; the cache itself is not changed. */
  function GetState(cache: Cache): (r: seq<BucketCache>)
    ensures |r| == |cache|
    ensures forall i :: 0 <= i < |cache| ==> r[i] == cache[i]
    ensures r == cache
  {
    seq(|cache|, i requires 0 <= i < |cache| => BucketCacheEntry.CreateCopy(cache[i]))
  }

  /** `LoadState`: appends the entries without de-duplication; a null list throws. */
  function LoadState(cache: Cache, state: Option<seq<BucketCache>>): (r: Result<Cache, Error>)
    ensures state.None? <==> r.Err?
    ensures r.Err? ==> r.error.ArgumentNull?
    ensures r.Ok? ==> |r.value| == |cache| + |state.value| && r.value[..|cache|] == cache && r.value[|cache|..] == state.value
  {
    if state.None? then Err(ArgumentNull("collection")) else Ok(cache + state.value)
  }

  /** Loading an id that is already cached makes every later lookup of it throw. */
  lemma LoadDuplicateBreaksLookup(cache: Cache, state: seq<BucketCache>, i: nat, j: nat)
    requires i < |cache| && j < |state|
    requires cache[i].bucketId == state[j].bucketId
    ensures GetById(LoadState(cache, Some(state)).value, cache[i].bucketId).Err?
  {
    var k := ById(cache[i].bucketId);
    CountAppend(cache, state, k);
    CountMember(cache, k, i);
    CountMember(state, k, j);
  }
}
