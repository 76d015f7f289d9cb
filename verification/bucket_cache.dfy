/** `B2BucketCache`: copying a cached bucket and turning it into a bucket record. */
module BucketCacheEntry {
  import opened Text
  import opened Objects

  /** `CreateCopy`: a new entry whose four fields equal the original's. */
  function CreateCopy(c: BucketCache): (r: BucketCache)
    ensures r.bucketId == c.bucketId && r.bucketName == c.bucketName
    ensures r.bucketType == c.bucketType && r.accountId == c.accountId
  {
    BucketCache(c.bucketId, c.bucketName, c.bucketType, c.accountId)
  }

  /** `CreateBucketClass`: the bucket record carrying the entry's id, name, type and account. */
  function CreateBucketClass(c: BucketCache): (r: BucketObject)
    ensures r.bucketId == c.bucketId && r.bucketName == c.bucketName
    ensures r.bucketType == c.bucketType && r.accountId == c.accountId
  {
    BucketObject(c.bucketId, c.accountId, c.bucketName, c.bucketType)
  }

  /** The entry a bucket record would be cached as if every field were kept. */
  function FromBucketObject(b: BucketObject): BucketCache {
    BucketCache(b.bucketId, b.bucketName, b.bucketType, b.accountId)
  }

  /** `CreateBucketClass` loses nothing: caching its result again gives the entry back. */
  lemma BucketClassRoundTrip(c: BucketCache)
    ensures FromBucketObject(CreateBucketClass(c)) == c
  {
  }

  /** `ToString`: the bucket name (null when the name is null). */
  function ToString(c: BucketCache): NString {
    c.bucketName
  }
}
