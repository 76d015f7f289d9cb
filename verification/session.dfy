/**
 * The session state both `B2Client` revisions hold: account, token, endpoints,
 * the bucket cache and the bucket-scoped credential pool, with the operations
 * the two revisions share verbatim.
 */
module Sessions {
  import opened Wrappers
  import opened Text
  import opened Objects
  import opened Remote
  import BucketCacher
  import SaveStates
  import Pools

  datatype Session = Session(
    accountId: NString,
    authorizationToken: NString,
    apiUrl: NString,
    downloadUrl: NString,
    cache: BucketCacher.Cache,
    uploadPool: Pools.KeyedPool<UploadConfig>)

  /** A client as its constructor leaves it. */
  const NewSession: Session := Session(None, None, None, None, [], map[])

  const NotAuthorized: Error := MissingAuthentication("You must call Login() or LoadState() first")

  /** `ThrowExceptionIfNotAuthorized`: throws iff the account id is null or empty. */
  function RequireAuthorized(s: Session): (r: Option<Error>)
    ensures r.None? <==> !IsNullOrEmpty(s.accountId)
    ensures r.Some? ==> r.value.MissingAuthentication?
  {
    if IsNullOrEmpty(s.accountId) then Some(NotAuthorized) else None
  }

  /** `FetchUploadConfig(bucketId)` on the session's pool. */
  function FetchUploadConfig(s: Session, bucketId: NString, backend: Backend): (r: Outcome<Session, UploadConfig>)
    ensures r.state == s.(uploadPool := r.state.uploadPool)
    ensures bucketId.Some? && |Pools.BagOf(s.uploadPool, bucketId.value)| > 0 ==>
      r.calls == [] && r.result.Ok? && r.result.value in multiset(Pools.BagOf(s.uploadPool, bucketId.value))
    ensures bucketId.Some? && |Pools.BagOf(s.uploadPool, bucketId.value)| == 0 ==>
      r.calls == [GetUploadUrl(bucketId.value)] && r.result == backend.getUploadUrl(bucketId.value)
    ensures bucketId.None? ==> r.result.Err? && r.calls == []
  {
    var o := Pools.FetchKeyed(s.uploadPool, bucketId, backend.getUploadUrl);
    Outcome(s.(uploadPool := o.state), o.result, o.calls)
  }

  /** `ReturnUploadConfig(bucketId, config)` on the session's pool. */
  function ReturnUploadConfig(s: Session, bucketId: NString, c: UploadConfig): (r: Result<Session, Error>)
    ensures r.Err? <==> bucketId.None?
    ensures r.Ok? ==> r.value == s.(uploadPool := r.value.uploadPool)
    ensures r.Ok? ==> multiset(Pools.BagOf(r.value.uploadPool, bucketId.value)) == multiset(Pools.BagOf(s.uploadPool, bucketId.value)) + multiset{c}
  {
    match Pools.ReturnKeyed(s.uploadPool, bucketId, c)
    case Err(e) => Err(e)
    case Ok(p) => Ok(s.(uploadPool := p))
  }

  /** `SaveState()`: the four scalars plus a copy of the cache. */
  function SaveState(s: Session): (r: SaveStates.SaveState)
    ensures r.accountId == s.accountId && r.authorizationToken == s.authorizationToken
    ensures r.apiUrl == s.apiUrl && r.downloadUrl == s.downloadUrl
    ensures r.bucketCache == Some(s.cache)
  {
    SaveStates.SaveState(s.accountId, s.authorizationToken, s.apiUrl, s.downloadUrl,
                         Some(BucketCacher.GetState(s.cache)))
  }

  /**
   * `LoadState(B2SaveState)`: overwrites the four scalars, then appends the saved
   * entries to the cache; a null entry list throws after the scalars are set.
   */
  function LoadState(s: Session, st: SaveStates.SaveState): (r: Outcome<Session, ()>)
    ensures r.calls == []
    ensures r.state.accountId == st.accountId && r.state.authorizationToken == st.authorizationToken
    ensures r.state.apiUrl == st.apiUrl && r.state.downloadUrl == st.downloadUrl
    ensures r.state.uploadPool == s.uploadPool
    ensures r.result.Err? <==> st.bucketCache.None?
    ensures r.result.Err? ==> r.state.cache == s.cache
    ensures r.result.Ok? ==> r.state.cache == s.cache + st.bucketCache.value
  {
    var s' := s.(accountId := st.accountId, authorizationToken := st.authorizationToken,
                 apiUrl := st.apiUrl, downloadUrl := st.downloadUrl);
    match BucketCacher.LoadState(s.cache, st.bucketCache)
    case Err(e) => Outcome(s', Err(e), [])
    case Ok(c) => Outcome(s'.(cache := c), Ok(()), [])
  }

  /** Saving a session and loading the snapshot into a new client restores everything but the pool. */
  lemma SaveLoadRoundTrip(s: Session)
    ensures LoadState(NewSession, SaveState(s)) == Outcome(s.(uploadPool := map[]), Ok(()), [])
  {
  }

  /** Loading the same snapshot twice duplicates every cached id, so lookups of them throw. */
  lemma LoadTwiceBreaksLookup(s: Session, st: SaveStates.SaveState, j: nat)
    requires st.bucketCache.Some? && j < |st.bucketCache.value|
    ensures var once := LoadState(s, st).state;
      BucketCacher.GetById(LoadState(once, st).state.cache, st.bucketCache.value[j].bucketId).Err?
  {
    var once := LoadState(s, st).state;
    BucketCacher.LoadDuplicateBreaksLookup(once.cache, st.bucketCache.value, |s.cache| + j, j);
  }

  /** `LoginAsync`: account, token and both URLs come from the authorization response. */
  function Login(s: Session, accountId: NString, applicationKey: NString, backend: Backend): (r: Outcome<Session, ()>)
    ensures r.calls == [Authorize(accountId)]
    ensures r.result.Ok? <==> backend.authorize(accountId, applicationKey).Ok?
    ensures r.result.Err? ==> r.state == s
    ensures r.result.Ok? ==> var a := backend.authorize(accountId, applicationKey).value;
      r.state == s.(accountId := a.accountId, authorizationToken := a.authorizationToken, apiUrl := a.apiUrl, downloadUrl := a.downloadUrl)
  {
    match backend.authorize(accountId, applicationKey)
    case Err(e) => Outcome(s, Err(e), [Authorize(accountId)])
    case Ok(a) =>
      Outcome(s.(accountId := a.accountId, authorizationToken := a.authorizationToken,
                 apiUrl := a.apiUrl, downloadUrl := a.downloadUrl), Ok(()), [Authorize(accountId)])
  }
}
