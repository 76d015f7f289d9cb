/**
 * The pure parts of `B2Communicator`: timeout selection, the token guard and
 * error mapping of API requests, the pre-checks of a builder upload, and the
 * mapping between file info and `X-Bz-Info-` headers in both directions.
 */
module Communicator {
  import opened Wrappers
  import opened Text
  import opened Objects
  import opened Remote
  import Hex
  import Uploaders
  import UrlEncoding

  /** The two timeouts, in milliseconds. */
  datatype Timeouts = Timeouts(metaMs: nat, dataMs: nat)

  /** The constructor's defaults: one minute for metadata requests, thirty for data transfers. */
  const DefaultTimeouts: Timeouts := Timeouts(60 * 1000, 30 * 60 * 1000)

  /** The kinds of request the communicator sends; uploads and downloads move file data. */
  datatype RequestKind = Api | Authorize | Upload | Download

  predicate IsDataRequest(k: RequestKind) {
    k.Upload? || k.Download?
  }

  /** `GetHttpClient(isDataRequest)`: the timeout the client is built with. */
  function TimeoutFor(t: Timeouts, k: RequestKind): (r: nat)
    ensures IsDataRequest(k) ==> r == t.dataMs
    ensures !IsDataRequest(k) ==> r == t.metaMs
  {
    if IsDataRequest(k) then t.dataMs else t.metaMs
  }

  /** With the defaults, a data transfer may take thirty times as long as any other request. */
  lemma DefaultTimeoutsByKind(k: RequestKind)
    ensures TimeoutFor(DefaultTimeouts, k) == (if k.Upload? || k.Download? then 1800000 else 60000)
    ensures TimeoutFor(DefaultTimeouts, RequestKind.Upload) == 30 * TimeoutFor(DefaultTimeouts, Api)
  {
  }

  /** What came back over HTTP: the status and the service's error body. */
  datatype Response = Response(status: int, code: NString, message: NString)

  const StatusOk: int := 200

  /** `HandleErrorResponse` after a status check: anything but 200 becomes a `B2Exception`. */
  function ErrorFor(resp: Response): (r: Option<Error>)
    ensures r.None? <==> resp.status == StatusOk
    ensures r.Some? ==> r.value.B2Failure? && r.value.status == resp.status && r.value.code == resp.code
  {
    if resp.status != StatusOk then Some(B2Failure(resp.status, resp.code, resp.message)) else None
  }

  const MissingToken: Error := Argument("Value must be set")

  /**
   * `InternalRequest`: every API call first requires the authorization token.
   * Without one, the result is the argument error `MissingToken` and nothing is
   * sent. A sent request succeeds exactly on status 200.
   */
  function ApiRequest(authToken: NString, resp: Response): (r: Result<Response, Error>)
    ensures IsNullOrEmpty(authToken) ==> r == Err(MissingToken)
    ensures !IsNullOrEmpty(authToken) ==> (r.Ok? <==> resp.status == StatusOk)
    ensures !IsNullOrEmpty(authToken) && r.Err? ==> r.error == B2Failure(resp.status, resp.code, resp.message)
    ensures r.Ok? ==> r.value == resp
  {
    if IsNullOrEmpty(authToken) then Err(MissingToken)
    else match ErrorFor(resp)
      case Some(e) => Err(e)
      case None => Ok(resp)
  }

  /** The token guard does not depend on the answer: a request without a token is never sent. */
  lemma NoTokenNoExchange(authToken: NString, a: Response, b: Response)
    requires IsNullOrEmpty(authToken)
    ensures ApiRequest(authToken, a) == ApiRequest(authToken, b)
    ensures ApiRequest(authToken, a).Err? && ApiRequest(authToken, a).error.Argument?
  {
  }

  /** `DeleteFile`: true whenever it returns normally, since a failure status has already thrown. */
  function DeleteFile(authToken: NString, resp: Response): (r: Result<bool, Error>)
    ensures r.Ok? <==> ApiRequest(authToken, resp).Ok?
    ensures r.Ok? ==> r.value
    ensures r.Err? ==> r.error == ApiRequest(authToken, resp).error
  {
    match ApiRequest(authToken, resp)
    case Err(e) => Err(e)
    case Ok(answer) => Ok(answer.status == StatusOk)
  }

  /** A hash that is missing, empty or not forty characters long. */
  predicate BadSha1(sha1: NString) {
    IsNullOrEmpty(sha1) || |sha1.value| != 40
  }

  /**
   * The pre-checks of the builder upload, in order: the input stream, the hash,
   * the file name, the content type. The first one that fails is the one thrown.
   */
  function UploadPreCheck(u: Uploaders.Uploader): (r: Option<Error>)
    ensures r.None? <==>
      u.inputStream.Some? && !BadSha1(u.sha1) && !IsNullOrEmpty(u.fileName) && !IsNullOrEmpty(u.contentType)
    ensures u.inputStream.None? ==> r == Some(ArgumentNull("Stream must be set"))
    ensures u.inputStream.Some? && BadSha1(u.sha1) ==> r == Some(Argument("SHA1 must be set or computed"))
    ensures u.inputStream.Some? && !BadSha1(u.sha1) && IsNullOrEmpty(u.fileName) ==>
      r == Some(Argument("Filename must be set"))
    ensures u.inputStream.Some? && !BadSha1(u.sha1) && !IsNullOrEmpty(u.fileName) && IsNullOrEmpty(u.contentType) ==>
      r == Some(Argument("ContentType must be set"))
  {
    if u.inputStream.None? then Some(ArgumentNull("Stream must be set"))
    else if BadSha1(u.sha1) then Some(Argument("SHA1 must be set or computed"))
    else if IsNullOrEmpty(u.fileName) then Some(Argument("Filename must be set"))
    else if IsNullOrEmpty(u.contentType) then Some(Argument("ContentType must be set"))
    else None
  }

  /**
   * A builder given an input, a non-empty name and a SHA-1 digest passes every
   * pre-check: the digest renders to the forty characters demanded, and the
   * content type keeps its default.
   */
  lemma BuiltUploaderPasses(bucketId: NString, name: string, input: Stream, digest: Hex.Digest)
    requires |name| > 0
    ensures var u := Uploaders.NewUploader(bucketId);
      var u' := Uploaders.SetExpectedSha1(Uploaders.SetInput(Uploaders.SetFileName(u, Some(name)), Some(input)), digest);
      UploadPreCheck(u') == None
  {
  }

  /** A builder that was never given a hash fails on it, whatever else is set. */
  lemma MissingHashIsRejected(u: Uploaders.Uploader)
    requires u.inputStream.Some? && u.sha1.None?
    ensures UploadPreCheck(u) == Some(Argument("SHA1 must be set or computed"))
  {
  }

  const InfoPrefix: string := "X-Bz-Info-"

  /** `key.StartsWith("X-Bz-Info-")`. */
  predicate IsInfoHeader(name: string) {
    |name| >= |InfoPrefix| && name[..|InfoPrefix|] == InfoPrefix
  }

  /** The header of one info entry: the prefixed key and the URL-encoded value. */
  function InfoHeader(entry: (string, string)): (r: (string, string))
    ensures IsInfoHeader(r.0) && r.0[|InfoPrefix|..] == entry.0
    ensures r.1 == UrlEncoding.UrlEncode(entry.1)
  {
    assert (InfoPrefix + entry.0)[..|InfoPrefix|] == InfoPrefix;
    (InfoPrefix + entry.0, UrlEncoding.UrlEncode(entry.1))
  }

  /** The info headers of an upload, one per entry, in the table's order. */
  function InfoHeaders(t: Uploaders.InfoTable): (r: seq<(string, string)>)
    ensures |r| == |t|
    ensures forall i :: 0 <= i < |t| ==> r[i] == InfoHeader(t[i])
  {
    seq(|t|, i requires 0 <= i < |t| => InfoHeader(t[i]))
  }

  /**
   * The file info of a download: every `X-Bz-Info-` header, prefix stripped,
   * with its (first) value as received; a later header overwrites an earlier one.
   */
  function ExtractInfo(headers: seq<(string, string)>): map<string, string>
    decreases |headers|
  {
    if |headers| == 0 then map[]
    else
      var m := ExtractInfo(headers[..|headers| - 1]);
      var (name, value) := headers[|headers| - 1];
      if IsInfoHeader(name) then m[name[|InfoPrefix|..] := value] else m
  }

  /** One more header changes the info only when it is an info header. */
  lemma ExtractSnoc(headers: seq<(string, string)>, h: (string, string))
    ensures ExtractInfo(headers + [h]) ==
      if IsInfoHeader(h.0) then ExtractInfo(headers)[h.0[|InfoPrefix|..] := h.1] else ExtractInfo(headers)
  {
    assert (headers + [h])[..|headers|] == headers;
  }

  /** Headers without the prefix contribute nothing. */
  lemma {:induction false} ExtractIgnoresOthers(headers: seq<(string, string)>, others: seq<(string, string)>)
    requires forall i :: 0 <= i < |others| ==> !IsInfoHeader(others[i].0)
    ensures ExtractInfo(headers + others) == ExtractInfo(headers)
    decreases |others|
  {
    if |others| == 0 {
      assert headers + others == headers;
    } else {
      var init := others[..|others| - 1];
      assert headers + others == (headers + init) + [others[|others| - 1]];
      ExtractSnoc(headers + init, others[|others| - 1]);
      ExtractIgnoresOthers(headers, init);
    }
  }

  /** No two entries share a key exactly. */
  predicate DistinctKeys(t: Uploaders.InfoTable) {
    forall i, j :: 0 <= i < j < |t| ==> t[i].0 != t[j].0
  }

  /** The keys an info table holds. */
  function KeysOf(t: Uploaders.InfoTable): set<string> {
    set i | 0 <= i < |t| :: t[i].0
  }

  lemma KeysOfSnoc(t: Uploaders.InfoTable, e: (string, string))
    ensures KeysOf(t + [e]) == KeysOf(t) + {e.0}
  {
    var u := t + [e];
    forall k | k in KeysOf(u) ensures k in KeysOf(t) + {e.0} {
      var i :| 0 <= i < |u| && u[i].0 == k;
      if i < |t| {
        assert t[i].0 == k;
      }
    }
    forall k | k in KeysOf(t) ensures k in KeysOf(u) {
      var i :| 0 <= i < |t| && t[i].0 == k;
      assert u[i].0 == k;
    }
    assert u[|t|].0 == e.0;
  }

  /**
   * Reading back the headers an info table is sent as gives every key with its
   * URL-encoded value (downloads do not decode), and no other key.
   */
  lemma {:induction false} InfoRoundTrip(t: Uploaders.InfoTable)
    requires DistinctKeys(t)
    ensures ExtractInfo(InfoHeaders(t)).Keys == KeysOf(t)
    ensures forall i :: 0 <= i < |t| ==> ExtractInfo(InfoHeaders(t))[t[i].0] == UrlEncoding.UrlEncode(t[i].1)
    decreases |t|
  {
    if |t| > 0 {
      var init := t[..|t| - 1];
      var e := t[|t| - 1];
      assert t == init + [e];
      assert DistinctKeys(init);
      InfoRoundTrip(init);
      assert InfoHeaders(t) == InfoHeaders(init) + [InfoHeader(e)];
      ExtractSnoc(InfoHeaders(init), InfoHeader(e));
      assert forall i :: 0 <= i < |init| ==> init[i].0 != e.0 by {
        forall i | 0 <= i < |init| ensures init[i].0 != e.0 {
          assert init[i] == t[i];
        }
      }
      InfoStep(init, e, ExtractInfo(InfoHeaders(init)));
    }
  }

  /** The step of `InfoRoundTrip`: one more entry with a fresh key. */
  lemma InfoStep(init: Uploaders.InfoTable, e: (string, string), before: map<string, string>)
    requires before.Keys == KeysOf(init)
    requires forall i :: 0 <= i < |init| ==> before[init[i].0] == UrlEncoding.UrlEncode(init[i].1)
    requires forall i :: 0 <= i < |init| ==> init[i].0 != e.0
    ensures before[e.0 := UrlEncoding.UrlEncode(e.1)].Keys == KeysOf(init + [e])
    ensures forall i :: 0 <= i < |init + [e]| ==>
      before[e.0 := UrlEncoding.UrlEncode(e.1)][(init + [e])[i].0] == UrlEncoding.UrlEncode((init + [e])[i].1)
  {
    KeysOfSnoc(init, e);
    var t := init + [e];
    var m := before[e.0 := UrlEncoding.UrlEncode(e.1)];
    forall i | 0 <= i < |t|
      ensures m[t[i].0] == UrlEncoding.UrlEncode(t[i].1)
    {
      if i < |init| {
        assert t[i] == init[i];
      }
    }
  }

  /**
   * An uploader's info table never holds two keys equal up to case, so every
   * one of its entries comes back from the headers, URL-encoded.
   */
  lemma UploaderInfoRoundTrip(u: Uploaders.Uploader)
    requires Uploaders.CaseUnique(u.infoes)
    ensures ExtractInfo(InfoHeaders(u.infoes)).Keys == KeysOf(u.infoes)
    ensures forall i :: 0 <= i < |u.infoes| ==>
      ExtractInfo(InfoHeaders(u.infoes))[u.infoes[i].0] == UrlEncoding.UrlEncode(u.infoes[i].1)
  {
    var t := u.infoes;
    forall i, j | 0 <= i < j < |t| ensures t[i].0 != t[j].0 {
      assert !Text.SameIgnoringCase(t[i].0, t[j].0);
    }
    InfoRoundTrip(t);
  }

  /** Each info entry of a simple upload reaches the service under its own prefixed header, once. */
  lemma InfoHeadersArePrefixed(t: Uploaders.InfoTable)
    ensures forall i :: 0 <= i < |t| ==> IsInfoHeader(InfoHeaders(t)[i].0) && InfoHeaders(t)[i].0 == InfoPrefix + t[i].0
  {
  }

  /** The simple upload's content type: the given one, or `b2/x-auto` when it is null (an empty one is kept). */
  function ContentTypeOrDefault(contentType: NString): (r: string)
    ensures contentType.Some? ==> r == contentType.value
    ensures contentType.None? ==> r == Uploaders.AutoContentType
    ensures |r| == 0 ==> contentType == Some("")
  {
    if contentType.None? then Uploaders.AutoContentType else contentType.value
  }
}
