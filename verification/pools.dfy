/**
 * Upload-credential bags. A `ConcurrentBag` used from one thread hands back the
 * element added last, so a bag is a sequence taken from its end; the multiset of
 * its elements is the thread-agnostic view.
 */
module Pools {
  import opened Wrappers
  import opened Text
  import opened Remote

  /** `TryTake`. */
  function TryTake<C>(bag: seq<C>): (r: Option<(C, seq<C>)>)
    ensures r.None? <==> |bag| == 0
    ensures r.Some? ==> r.value.1 + [r.value.0] == bag
  {
    if |bag| == 0 then None else Some((bag[|bag| - 1], bag[..|bag| - 1]))
  }

  /**
   * A fetch from one bag: take a pooled credential when there is one (no remote
   * call), otherwise make exactly one minting call and hand out its result without
   * pooling it.
   */
  function Fetch<C>(bag: seq<C>, mint: Result<C, Error>, mintCall: Call): (r: Outcome<seq<C>, C>)
    ensures |bag| > 0 ==> r.calls == [] && r.result.Ok? && multiset(r.state) + multiset{r.result.value} == multiset(bag)
    ensures |bag| > 0 ==> r.state + [r.result.value] == bag
    ensures |bag| == 0 ==> r.calls == [mintCall] && r.result == mint && r.state == []
  {
    match TryTake(bag)
    case Some((c, rest)) =>
      assert bag == rest + [c];
      Outcome(rest, Ok(c), [])
    case None => Outcome(bag, mint, [mintCall])
  }

  /** A return pushes the credential back. */
  function Return<C>(bag: seq<C>, c: C): (r: seq<C>)
    ensures multiset(r) == multiset(bag) + multiset{c}
    ensures |r| == |bag| + 1
  {
    bag + [c]
  }

  /** A credential just returned is the next one fetched, and no mint happens. */
  lemma ReturnThenFetch<C>(bag: seq<C>, c: C, mint: Result<C, Error>, mintCall: Call)
    ensures Fetch(Return(bag, c), mint, mintCall) == Outcome(bag, Ok(c), [])
  {
    assert (bag + [c])[..|bag|] == bag;
  }

  /** The bucket-scoped pool: one bag per bucket id. */
  type KeyedPool<C> = map<string, seq<C>>

  /** `GetOrAdd(key, new bag)`: the key's bag, empty when the key is new. */
  function BagOf<C>(pool: KeyedPool<C>, key: string): seq<C> {
    if key in pool then pool[key] else []
  }

  /** A null key makes `ConcurrentDictionary.GetOrAdd` throw. */
  const NullKey: Error := ArgumentNull("key")

  /**
   * `FetchUploadConfig(bucketId)`: pop from the bucket's bag, or mint one
   * credential with `GetUploadUrl`; the bag is created if missing and the minted
   * credential is not added to it. Other buckets' bags are untouched.
   */
  function FetchKeyed<C>(pool: KeyedPool<C>, key: NString, mint: string -> Result<C, Error>): (r: Outcome<KeyedPool<C>, C>)
    ensures key.None? ==> r == Outcome(pool, Err(NullKey), [])
    ensures key.Some? ==> r.state.Keys == pool.Keys + {key.value}
    ensures key.Some? ==> forall k :: k in pool && k != key.value ==> r.state[k] == pool[k]
    ensures key.Some? && |BagOf(pool, key.value)| > 0 ==>
      && r.calls == [] && r.result.Ok?
      && r.state[key.value] + [r.result.value] == BagOf(pool, key.value)
    ensures key.Some? && |BagOf(pool, key.value)| == 0 ==>
      r.calls == [GetUploadUrl(key.value)] && r.result == mint(key.value) && r.state[key.value] == []
    ensures |r.calls| <= 1
  {
    if key.None? then Outcome(pool, Err(NullKey), [])
    else
      var k := key.value;
      var o := Fetch(BagOf(pool, k), mint(k), GetUploadUrl(k));
      Outcome(pool[k := o.state], o.result, o.calls)
  }

  /** `ReturnUploadConfig(bucketId, config)`: adds to that bucket's bag only, creating it if missing. */
  function ReturnKeyed<C>(pool: KeyedPool<C>, key: NString, c: C): (r: Result<KeyedPool<C>, Error>)
    ensures key.None? <==> r.Err?
    ensures r.Err? ==> r.error == NullKey
    ensures r.Ok? ==> r.value.Keys == pool.Keys + {key.value}
    ensures r.Ok? ==> multiset(r.value[key.value]) == multiset(BagOf(pool, key.value)) + multiset{c}
    ensures r.Ok? ==> forall k :: k in pool && k != key.value ==> r.value[k] == pool[k]
  {
    if key.None? then Err(NullKey) else Ok(pool[key.value := Return(BagOf(pool, key.value), c)])
  }

  /** Returning then fetching on the same bucket hands the same credential back with no mint. */
  lemma ReturnThenFetchKeyed<C>(pool: KeyedPool<C>, key: string, c: C, mint: string -> Result<C, Error>)
    ensures var p := ReturnKeyed(pool, Some(key), c).value;
      && FetchKeyed(p, Some(key), mint).result == Ok(c)
      && FetchKeyed(p, Some(key), mint).calls == []
      && FetchKeyed(p, Some(key), mint).state == pool[key := BagOf(pool, key)]
  {
    ReturnThenFetch(BagOf(pool, key), c, mint(key), GetUploadUrl(key));
  }
}
