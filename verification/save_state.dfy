/** `B2SaveState`: the exported snapshot of a session. */
module SaveStates {
  import opened Wrappers
  import opened Text
  import opened Objects
  import opened Remote

  datatype SaveState = SaveState(
    accountId: NString,
    authorizationToken: NString,
    apiUrl: NString,
    downloadUrl: NString,
    bucketCache: Option<seq<BucketCache>>)

  /**
   * `CopyTo`: the four scalars are assigned first, then the other object gets a new
   * list holding this object's entries. `ToList` on a null list throws
   * `ArgumentNullException`, after the scalars are set.
   */
  function CopyTo(src: SaveState, other: SaveState): (r: Outcome<SaveState, ()>)
    ensures r.calls == []
    ensures r.state.accountId == src.accountId && r.state.authorizationToken == src.authorizationToken
    ensures r.state.apiUrl == src.apiUrl && r.state.downloadUrl == src.downloadUrl
    ensures r.result.Err? <==> src.bucketCache.None?
    ensures r.result.Err? ==> r.result.error == ArgumentNull("source") && r.state.bucketCache == other.bucketCache
    ensures r.result.Ok? ==> r.state.bucketCache == src.bucketCache
  {
    var scalars := other.(accountId := src.accountId, authorizationToken := src.authorizationToken,
                          apiUrl := src.apiUrl, downloadUrl := src.downloadUrl);
    if src.bucketCache.None? then Outcome(scalars, Err(ArgumentNull("source")), [])
    else Outcome(scalars.(bucketCache := Some(src.bucketCache.value[..])), Ok(()), [])
  }

  /** A successful `CopyTo` leaves the other object equal to this one. */
  lemma CopyToMakesEqual(src: SaveState, other: SaveState)
    requires src.bucketCache.Some?
    ensures CopyTo(src, other).state == src
  {
  }

  const ToStringHead: string := "AccountId: "

  /** The count `ToString` reports: empty for a null list (`BucketCache?.Count`). */
  function CountText(cache: Option<seq<BucketCache>>): string {
    if cache.None? then "" else NatToString(|cache.value|)
  }

  /** `ToString`: account, API URL and the number of cached buckets. */
  function ToString(s: SaveState): string {
    ToStringHead + Render(s.accountId) + ", ApiUrl: " + Render(s.apiUrl) + ", BucketCache: " + CountText(s.bucketCache)
  }

  /** The text after "BucketCache: " is empty for a null list and reads back as the count otherwise. */
  lemma ToStringReportsCount(s: SaveState)
    ensures var t := ToString(s); var n := |CountText(s.bucketCache)|;
      n <= |t| && t[|t| - n..] == CountText(s.bucketCache)
    ensures s.bucketCache.None? ==> CountText(s.bucketCache) == ""
    ensures s.bucketCache.Some? ==>
      (forall i :: 0 <= i < |CountText(s.bucketCache)| ==> IsDigit(CountText(s.bucketCache)[i]))
      && ParseNat(CountText(s.bucketCache)) == |s.bucketCache.value|
  {
    if s.bucketCache.Some? {
      ParseNatToString(|s.bucketCache.value|);
    }
  }
}
