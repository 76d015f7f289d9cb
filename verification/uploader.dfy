/**
 * `B2Uploader`: the builder describing one upload. Every setter returns the
 * builder with only its own field changed; info keys are compared ignoring case.
 */
module Uploaders {
  import opened Wrappers
  import opened Text
  import opened Objects
  import opened Remote
  import Hex

  /**
   * The info dictionary (`StringComparer.InvariantCultureIgnoreCase`): entries in
   * insertion order, each keeping the spelling its key was first added with.
   */
  type InfoTable = seq<(string, string)>

  /** No two keys of the table are equal ignoring case. */
  predicate CaseUnique(t: InfoTable) {
    forall i, j :: 0 <= i < j < |t| ==> !SameIgnoringCase(t[i].0, t[j].0)
  }

  /** The position of the entry whose key equals `key` ignoring case, if any. */
  function Find(t: InfoTable, key: string): (r: Option<nat>)
    ensures r.Some? ==> r.value < |t| && SameIgnoringCase(t[r.value].0, key)
    ensures r.Some? ==> forall j :: 0 <= j < r.value ==> !SameIgnoringCase(t[j].0, key)
    ensures r.None? ==> forall j :: 0 <= j < |t| ==> !SameIgnoringCase(t[j].0, key)
    decreases |t|
  {
    if |t| == 0 then None
    else if SameIgnoringCase(t[0].0, key) then Some(0)
    else match Find(t[1..], key)
      case None => None
      case Some(j) => Some(j + 1)
  }

  /** The dictionary's indexer read: the value stored under `key`, ignoring case. */
  function Lookup(t: InfoTable, key: string): Option<string> {
    match Find(t, key)
    case None => None
    case Some(i) => Some(t[i].1)
  }

  /** Tables with the same keys in the same places find every key in the same place. */
  lemma {:induction false} FindSameKeys(a: InfoTable, b: InfoTable, key: string)
    requires |a| == |b|
    requires forall i :: 0 <= i < |a| ==> a[i].0 == b[i].0
    ensures Find(a, key) == Find(b, key)
    decreases |a|
  {
    if |a| > 0 {
      FindSameKeys(a[1..], b[1..], key);
    }
  }

  /** Appending an entry only adds a match for keys the table did not have. */
  lemma {:induction false} FindAppend(t: InfoTable, e: (string, string), key: string)
    ensures Find(t + [e], key) ==
      if Find(t, key).Some? then Find(t, key)
      else if SameIgnoringCase(e.0, key) then Some(|t|) else None
    decreases |t|
  {
    if |t| == 0 {
      assert [e][1..] == [];
    } else {
      assert (t + [e])[1..] == t[1..] + [e];
      FindAppend(t[1..], e, key);
    }
  }

  /**
   * `dictionary[key] = value`: overwrite the value of the entry equal to `key`
   * ignoring case (its key keeps its first spelling), or append a new entry.
   */
  function Put(t: InfoTable, key: string, value: string): (r: InfoTable)
    ensures Lookup(r, key) == Some(value)
    ensures forall k :: !SameIgnoringCase(k, key) ==> Lookup(r, k) == Lookup(t, k)
    ensures |r| == |t| + (if Find(t, key).None? then 1 else 0)
    ensures CaseUnique(t) ==> CaseUnique(r)
  {
    match Find(t, key)
    case Some(i) =>
      var r := t[i := (t[i].0, value)];
      forall k ensures Find(r, k) == Find(t, k) {
        FindSameKeys(r, t, k);
      }
      r
    case None =>
      var r := t + [(key, value)];
      forall k ensures Find(r, k) == (if Find(t, k).Some? then Find(t, k) else if SameIgnoringCase(key, k) then Some(|t|) else None) {
        FindAppend(t, (key, value), k);
      }
      r
  }

  datatype Uploader = Uploader(
    bucketId: NString,
    fileName: NString,
    inputStream: Option<Stream>,
    contentType: NString,
    sha1: NString,
    /** Whether a progress delegate is set (the delegate itself is not modelled). */
    notifies: bool,
    infoes: InfoTable)

  const AutoContentType: string := "b2/x-auto"

  /** The constructor: the bucket id, the automatic content type, an empty info table and nothing else. */
  function NewUploader(bucketId: NString): (r: Uploader)
    ensures r.bucketId == bucketId && r.contentType == Some(AutoContentType) && r.infoes == []
    ensures r.fileName.None? && r.inputStream.None? && r.sha1.None? && !r.notifies
  {
    Uploader(bucketId, None, None, Some(AutoContentType), None, false, [])
  }

  /** `SetInfo(key, value)`: a null key makes the dictionary throw; otherwise the entry is stored or overwritten. */
  function SetInfo(u: Uploader, key: NString, value: string): (r: Result<Uploader, Error>)
    ensures r.Err? <==> key.None?
    ensures r.Err? ==> r.error == ArgumentNull("key")
    ensures r.Ok? ==> r.value.(infoes := u.infoes) == u
    ensures r.Ok? ==> Lookup(r.value.infoes, key.value) == Some(value)
    ensures r.Ok? ==> forall k :: !SameIgnoringCase(k, key.value) ==> Lookup(r.value.infoes, k) == Lookup(u.infoes, k)
    ensures r.Ok? && CaseUnique(u.infoes) ==> CaseUnique(r.value.infoes)
  {
    if key.None? then Err(ArgumentNull("key")) else Ok(u.(infoes := Put(u.infoes, key.value, value)))
  }

  /** Setting "A" and then "a" leaves a single entry, under "A", holding the later value. */
  lemma SetInfoIgnoresCase(bucketId: NString, first: string, second: string)
    ensures var u := NewUploader(bucketId);
      var once := SetInfo(u, Some("A"), first).value;
      var twice := SetInfo(once, Some("a"), second).value;
      twice.infoes == [("A", second)]
  {
    assert SameIgnoringCase("A", "a") by {
      assert Fold("A") == "a";
      assert Fold("a") == "a";
    }
  }

  function SetExpectedSha1Text(u: Uploader, sha1: NString): (r: Uploader)
    ensures r.sha1 == sha1 && r.(sha1 := u.sha1) == u
  {
    u.(sha1 := sha1)
  }

  /** `SetExpectedSha1(byte[])`: the digest as upper-case hex without separators. */
  function SetExpectedSha1(u: Uploader, digest: seq<Hex.byte>): (r: Uploader)
    ensures r.(sha1 := u.sha1) == u
    ensures r.sha1.Some? && |r.sha1.value| == 2 * |digest|
    ensures forall i :: 0 <= i < |r.sha1.value| ==> Hex.IsHexChar(r.sha1.value[i])
    ensures Hex.HexDecode(r.sha1.value) == Some(digest)
  {
    SetExpectedSha1Text(u, Some(Hex.Sha1Hex(digest)))
  }

  function SetInput(u: Uploader, stream: Option<Stream>): (r: Uploader)
    ensures r.inputStream == stream && r.(inputStream := u.inputStream) == u
  {
    u.(inputStream := stream)
  }

  function SetFileName(u: Uploader, fileName: NString): (r: Uploader)
    ensures r.fileName == fileName && r.(fileName := u.fileName) == u
  {
    u.(fileName := fileName)
  }

  function SetNotificationAction(u: Uploader, present: bool): (r: Uploader)
    ensures r.notifies == present && r.(notifies := u.notifies) == u
  {
    u.(notifies := present)
  }

  function SetContentType(u: Uploader, contentType: NString): (r: Uploader)
    ensures r.contentType == contentType && r.(contentType := u.contentType) == u
  {
    u.(contentType := contentType)
  }

  /**
   * `CalculateSha1FromInput()`: the expected hash becomes the hex SHA-1 of the
   * input's bytes (`contents`); without an input, seeking it throws.
   */
  function CalculateSha1FromInput(u: Uploader, contents: seq<Hex.byte>, sha1: seq<Hex.byte> -> Hex.Digest): (r: Result<Uploader, Error>)
    ensures r.Err? <==> u.inputStream.None?
    ensures r.Err? ==> r.error == NullReference
    ensures r.Ok? ==> r.value.(sha1 := u.sha1) == u
    ensures r.Ok? ==> r.value.sha1.Some? && |r.value.sha1.value| == 40
    ensures r.Ok? ==> Hex.HexDecode(r.value.sha1.value) == Some(sha1(contents))
  {
    if u.inputStream.None? then Err(NullReference) else Ok(SetExpectedSha1(u, sha1(contents)))
  }
}
