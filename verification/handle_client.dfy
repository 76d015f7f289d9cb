/**
 * The bucket operations of the handle-returning `B2Client` (the revision whose
 * buckets are `B2Bucket` handles). Bucket handles are represented by the bucket
 * records they wrap.
 */
module HandleClient {
  import opened Wrappers
  import opened Text
  import opened Objects
  import opened Remote
  import BucketCacher
  import opened Sessions

  /**
   * `GetBucketsAsync`: the auth guard, one listing, then every listed bucket is
   * recorded in the cache. The listing is returned as the service answered it.
   */
  function GetBuckets(s: Session, backend: Backend): (r: Outcome<Session, seq<BucketObject>>)
    ensures RequireAuthorized(s).Some? ==> r == Outcome(s, Err(RequireAuthorized(s).value), [])
    ensures RequireAuthorized(s).None? ==> r.calls == [ListBuckets(s.accountId)]
    ensures r.state == s.(cache := r.state.cache)
    ensures r.result.Ok? ==> backend.listBuckets(s.accountId) == Ok(r.result.value)
    ensures r.result.Ok? ==> r.state.cache == BucketCacher.RecordBuckets(s.cache, r.result.value).state
    ensures RequireAuthorized(s).None? && backend.listBuckets(s.accountId).Err? ==>
      r.result == Err(backend.listBuckets(s.accountId).error) && r.state == s
  {
    if RequireAuthorized(s).Some? then Outcome(s, Err(RequireAuthorized(s).value), [])
    else
      var call := ListBuckets(s.accountId);
      match backend.listBuckets(s.accountId)
      case Err(e) => Outcome(s, Err(e), [call])
      case Ok(buckets) =>
        var rec := BucketCacher.RecordBuckets(s.cache, buckets);
        var s' := s.(cache := rec.state);
        if rec.result.Err? then Outcome(s', Err(rec.result.error), [call])
        else Outcome(s', Ok(buckets), [call])
  }

  /** After a successful `GetBucketsAsync`, every listed bucket id is in the cache. */
  lemma GetBucketsCachesListing(s: Session, backend: Backend)
    requires GetBuckets(s, backend).result.Ok?
    ensures var r := GetBuckets(s, backend);
      forall i :: 0 <= i < |r.result.value| ==> BucketCacher.GetById(r.state.cache, r.result.value[i].bucketId) != Ok(None)
  {
    var r := GetBuckets(s, backend);
    BucketCacher.RecordBucketsCachesAll(s.cache, r.result.value);
  }

  /** `CreateBucketAsync`: the auth guard, one creation call, then the new bucket is recorded. */
  function CreateBucket(s: Session, name: NString, bucketType: BucketType, backend: Backend): (r: Outcome<Session, BucketObject>)
    ensures RequireAuthorized(s).Some? ==> r == Outcome(s, Err(RequireAuthorized(s).value), [])
    ensures RequireAuthorized(s).None? ==> r.calls == [Call.CreateBucket(s.accountId, name, bucketType)]
    ensures r.state == s.(cache := r.state.cache)
    ensures r.result.Ok? ==> backend.createBucket(s.accountId, name, bucketType) == Ok(r.result.value)
    ensures r.result.Ok? ==> BucketCacher.GetById(r.state.cache, r.result.value.bucketId) != Ok(None)
    ensures r.result.Ok? ==>
      BucketCacher.RecordBucket(s.cache, r.result.value).Ok? && r.state.cache == BucketCacher.RecordBucket(s.cache, r.result.value).value.0
    ensures RequireAuthorized(s).None? && backend.createBucket(s.accountId, name, bucketType).Ok? ==>
      var b := backend.createBucket(s.accountId, name, bucketType).value;
      (r.result.Ok? <==> BucketCacher.RecordBucket(s.cache, b).Ok?) && (r.result.Err? ==> r.state == s)
  {
    if RequireAuthorized(s).Some? then Outcome(s, Err(RequireAuthorized(s).value), [])
    else
      var call := Call.CreateBucket(s.accountId, name, bucketType);
      match backend.createBucket(s.accountId, name, bucketType)
      case Err(e) => Outcome(s, Err(e), [call])
      case Ok(b) =>
        match BucketCacher.RecordBucket(s.cache, b)
        case Err(e) => Outcome(s, Err(e), [call])
        case Ok((cache', _)) =>
          BucketCacher.RecordThenGet(s.cache, b);
          Outcome(s.(cache := cache'), Ok(b), [call])
  }

  /**
   * `FirstOrDefault(s => field(s).Equals(want))`: the first record whose field
   * equals `want`; a record with a null field met before any match throws
   * `NullReferenceException`, and `Equals(null)` is false.
   */
  function FirstEquals(buckets: seq<BucketObject>, field: BucketObject -> NString, want: NString): (r: Result<Option<BucketObject>, Error>)
    ensures r.Err? ==> r.error == NullReference
    ensures r.Ok? && r.value.Some? ==>
      exists i :: 0 <= i < |buckets| && buckets[i] == r.value.value && field(buckets[i]) == want && want.Some?
        && forall j :: 0 <= j < i ==> field(buckets[j]).Some? && field(buckets[j]) != want
    ensures r == Ok(None) <==> forall j :: 0 <= j < |buckets| ==> field(buckets[j]).Some? && field(buckets[j]) != want
    ensures (forall j :: 0 <= j < |buckets| ==> field(buckets[j]).Some?) ==> r.Ok?
    decreases |buckets|
  {
    if |buckets| == 0 then Ok(None)
    else if field(buckets[0]).None? then Err(NullReference)
    else if want.Some? && field(buckets[0]) == want then Ok(Some(buckets[0]))
    else
      var rest := FirstEquals(buckets[1..], field, want);
      assert forall j :: 1 <= j < |buckets| ==> buckets[j] == buckets[1..][j - 1];
      rest
  }

  function NameOf(b: BucketObject): NString { b.bucketName }

  function IdOf(b: BucketObject): NString { b.bucketId }

  /**
   * A lookup of the handle client: the auth guard, then a full `GetBucketsAsync`
   * (never the cache), then the first listed bucket whose field equals `want`.
   */
  function Lookup(s: Session, backend: Backend, field: BucketObject -> NString, want: NString): (r: Outcome<Session, Option<BucketObject>>)
    ensures RequireAuthorized(s).Some? ==> r == Outcome(s, Err(RequireAuthorized(s).value), [])
    ensures RequireAuthorized(s).None? ==> r.calls == [ListBuckets(s.accountId)]
    ensures r.state == GetBuckets(s, backend).state
    ensures r.result.Ok? ==> GetBuckets(s, backend).result.Ok?
    ensures r.result.Ok? && r.result.value.Some? ==>
      r.result.value.value in GetBuckets(s, backend).result.value && field(r.result.value.value) == want
    ensures GetBuckets(s, backend).result.Ok? ==>
      var f := FirstEquals(GetBuckets(s, backend).result.value, field, want);
      (r.result.Ok? <==> f.Ok?) && (r.result.Ok? ==> r.result.value == f.value)
    ensures GetBuckets(s, backend).result.Err? ==> r.result == Err(GetBuckets(s, backend).result.error)
  {
    var listed := GetBuckets(s, backend);
    if listed.result.Err? then Outcome(listed.state, Err(listed.result.error), listed.calls)
    else
      var found := FirstEquals(listed.result.value, field, want);
      if found.Err? then Outcome(listed.state, Err(found.error), listed.calls)
      else Outcome(listed.state, Ok(found.value), listed.calls)
  }

  /** `GetBucketByNameAsync`. */
  function GetBucketByName(s: Session, name: NString, backend: Backend): (r: Outcome<Session, Option<BucketObject>>)
    ensures RequireAuthorized(s).None? ==> r.calls == [ListBuckets(s.accountId)]
    ensures r.result.Ok? && r.result.value.Some? ==> r.result.value.value.bucketName == name
    ensures GetBuckets(s, backend).result.Ok? ==>
      var f := FirstEquals(GetBuckets(s, backend).result.value, NameOf, name);
      (r.result.Ok? <==> f.Ok?) && (r.result.Ok? ==> r.result.value == f.value)
  {
    Lookup(s, backend, NameOf, name)
  }

  /** `GetBucketByIdAsync`. */
  function GetBucketById(s: Session, id: NString, backend: Backend): (r: Outcome<Session, Option<BucketObject>>)
    ensures RequireAuthorized(s).None? ==> r.calls == [ListBuckets(s.accountId)]
    ensures r.result.Ok? && r.result.value.Some? ==> r.result.value.value.bucketId == id
    ensures GetBuckets(s, backend).result.Ok? ==>
      var f := FirstEquals(GetBuckets(s, backend).result.value, IdOf, id);
      (r.result.Ok? <==> f.Ok?) && (r.result.Ok? ==> r.result.value == f.value)
  {
    Lookup(s, backend, IdOf, id)
  }

  /**
   * The handle client ignores what it has cached: even with the bucket cached
   * under that id, a lookup lists the buckets again.
   */
  lemma LookupAlwaysLists(s: Session, id: NString, backend: Backend)
    requires !IsNullOrEmpty(s.accountId)
    requires BucketCacher.GetById(s.cache, id).Ok? && BucketCacher.GetById(s.cache, id).value.Some?
    ensures GetBucketById(s, id, backend).calls == [ListBuckets(s.accountId)]
  {
  }

  /** A lookup on a listing with no null names finds the first bucket of that name, or reports none. */
  lemma LookupByNameComplete(s: Session, name: NString, backend: Backend)
    requires !IsNullOrEmpty(s.accountId)
    requires GetBuckets(s, backend).result.Ok?
    requires forall b :: b in GetBuckets(s, backend).result.value ==> b.bucketName.Some?
    ensures GetBucketByName(s, name, backend).result.Ok?
    ensures GetBucketByName(s, name, backend).result.value.None? <==>
      forall b :: b in GetBuckets(s, backend).result.value ==> b.bucketName != name
  {
    var bs := GetBuckets(s, backend).result.value;
    assert forall j :: 0 <= j < |bs| ==> NameOf(bs[j]).Some?;
    var f := FirstEquals(bs, NameOf, name);
    if f.Ok? && f.value.Some? {
      var i :| 0 <= i < |bs| && bs[i] == f.value.value && NameOf(bs[i]) == name && name.Some?
        && forall j :: 0 <= j < i ==> NameOf(bs[j]).Some? && NameOf(bs[j]) != name;
    }
  }

  /**
   * A lookup by id on a listing with no null ids succeeds; it returns the first
   * listed bucket with that id, and null iff no listed bucket has it.
   */
  lemma LookupByIdComplete(s: Session, id: NString, backend: Backend)
    requires !IsNullOrEmpty(s.accountId)
    requires GetBuckets(s, backend).result.Ok?
    requires forall b :: b in GetBuckets(s, backend).result.value ==> b.bucketId.Some?
    ensures GetBucketById(s, id, backend).result.Ok?
    ensures GetBucketById(s, id, backend).result.value.None? <==>
      forall b :: b in GetBuckets(s, backend).result.value ==> b.bucketId != id
    ensures var bs := GetBuckets(s, backend).result.value;
      GetBucketById(s, id, backend).result.value.Some? ==>
        exists i :: 0 <= i < |bs| && bs[i] == GetBucketById(s, id, backend).result.value.value
          && bs[i].bucketId == id && forall j :: 0 <= j < i ==> bs[j].bucketId != id
  {
    var bs := GetBuckets(s, backend).result.value;
    assert forall j :: 0 <= j < |bs| ==> IdOf(bs[j]).Some?;
    var f := FirstEquals(bs, IdOf, id);
    if f.Ok? && f.value.Some? {
      var i :| 0 <= i < |bs| && bs[i] == f.value.value && IdOf(bs[i]) == id && id.Some?
        && forall j :: 0 <= j < i ==> IdOf(bs[j]).Some? && IdOf(bs[j]) != id;
    }
  }
}
