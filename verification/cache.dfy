/**
 * The read-through cache (`save`, `check_access_right` and
 * `cache_and_get_asset`, server.py lines 63-142).
 *
 * The cache directory is a map from file name to the record stored there.
 * A miss fetches the asset with a GET, writes its record once and reads it
 * back; a hit re-checks the caller's access with a HEAD before reading the
 * stored record.  `Serve` states what one request does to the cache and to
 * the origin's log; `AssetCache.CacheAndGetAsset` does it step by step.
 */
module Cache {
  import opened Common
  import opened Assets
  import opened Paths
  import opened Origin

  /** What one request returns, the cache files after it, and the origin's log after it. */
  datatype Outcome = Outcome(result: Result<CachedAsset, Failure>, files: map<string, Record>, calls: seq<Call>)

  /** The asset a successful GET delivers: its `Content-Type` header and its body. */
  function Fetched(resp: Response): CachedAsset
  {
    CachedAsset(resp.contentType, resp.body)
  }

  /** The error raised for a status other than 200: the origin's own status and reason. */
  function Rejected(resp: Response): Failure
  {
    HttpError(resp.status, resp.reason)
  }

  /** Every stored record can be read back. */
  ghost predicate Readable(files: map<string, Record>)
  {
    forall f :: f in files ==> DecodeRecord(files[f]).Ok?
  }

  /**
   * One call of `cache_and_get_asset(url, request)` whose request URL is `requestUrl`.
   * The origin's log gains at most one call, and no cache file disappears.
   */
  function Serve(files: map<string, Record>, calls: seq<Call>, respond: (nat, Call) -> Response,
                 url: string, requestUrl: string): (o: Outcome)
    ensures |calls| <= |o.calls| <= |calls| + 1 && o.calls[..|calls|] == calls
    ensures files.Keys <= o.files.Keys
  {
    match CacheFile(url)
    case Err(e) => Outcome(Err(e), files, calls)
    case Ok(file) => ServeFile(files, calls, respond, file, DownloadUrl(requestUrl))
  }

  /**
   * The request once its cache file is known: `save` or `check_access_right`, then the read-back.
   * Exactly one call is logged; an existing cache file is never rewritten; a rejected call
   * stores nothing; a success is what the cache file now holds.
   */
  function ServeFile(files: map<string, Record>, calls: seq<Call>, respond: (nat, Call) -> Response,
                     file: string, downloadUrl: string): (o: Outcome)
    ensures |o.calls| == |calls| + 1 && o.calls[..|calls|] == calls
    ensures files.Keys <= o.files.Keys && forall f :: f in files ==> o.files[f] == files[f]
    ensures o.result.Err? && o.result.error.HttpError? ==> o.files == files
    ensures o.result.Ok? ==> file in o.files && DecodeRecord(o.files[file]) == o.result
  {
    var call := Call(if file in files then Head else Get, downloadUrl);
    var resp := respond(|calls|, call);
    var calls' := calls + [call];
    if resp.status != 200 then Outcome(Err(Rejected(resp)), files, calls')
    else
      var files' := if file in files then files else files[file := EncodeRecord(Fetched(resp))];
      Outcome(DecodeRecord(files'[file]), files', calls')
  }

  /** A URL without the storage host or without `/o/` fails before the cache or the origin is touched. */
  lemma ServeMalformed(files: map<string, Record>, calls: seq<Call>, respond: (nat, Call) -> Response,
                       url: string, requestUrl: string)
    requires CacheFile(url).Err?
    ensures Serve(files, calls, respond, url, requestUrl) == Outcome(Err(MalformedUrl), files, calls)
  {
  }

  /** A well-formed request makes exactly one origin call: a GET on a miss, a HEAD on a hit, to the download URL. */
  lemma ServeOneCall(files: map<string, Record>, calls: seq<Call>, respond: (nat, Call) -> Response,
                     url: string, requestUrl: string)
    requires CacheFile(url).Ok?
    ensures var o := Serve(files, calls, respond, url, requestUrl);
      o.calls == calls + [Call(if CacheFile(url).value in files then Head else Get, DownloadUrl(requestUrl))]
  {
    assert Serve(files, calls, respond, url, requestUrl) ==
      ServeFile(files, calls, respond, CacheFile(url).value, DownloadUrl(requestUrl));
  }

  /**
   * A miss whose GET succeeds stores exactly the fetched content type and bytes under
   * the URL's file, changes no other file, and returns what was fetched.
   */
  lemma ServeMissStores(files: map<string, Record>, calls: seq<Call>, respond: (nat, Call) -> Response,
                        url: string, requestUrl: string)
    requires CacheFile(url).Ok? && CacheFile(url).value !in files
    requires respond(|calls|, Call(Get, DownloadUrl(requestUrl))).status == 200
    ensures var resp := respond(|calls|, Call(Get, DownloadUrl(requestUrl)));
      var o := Serve(files, calls, respond, url, requestUrl);
      o.files == files[CacheFile(url).value := EncodeRecord(Fetched(resp))] && o.result == Ok(Fetched(resp))
  {
    assert Serve(files, calls, respond, url, requestUrl) ==
      ServeFile(files, calls, respond, CacheFile(url).value, DownloadUrl(requestUrl));
    var resp := respond(|calls|, Call(Get, DownloadUrl(requestUrl)));
    RecordRoundTrip(Fetched(resp));
  }

  /** A miss whose GET fails raises the origin's status and reason and caches nothing. */
  lemma ServeMissRejected(files: map<string, Record>, calls: seq<Call>, respond: (nat, Call) -> Response,
                          url: string, requestUrl: string)
    requires CacheFile(url).Ok? && CacheFile(url).value !in files
    requires respond(|calls|, Call(Get, DownloadUrl(requestUrl))).status != 200
    ensures var resp := respond(|calls|, Call(Get, DownloadUrl(requestUrl)));
      var o := Serve(files, calls, respond, url, requestUrl);
      o.files == files && o.result == Err(HttpError(resp.status, resp.reason))
  {
    assert Serve(files, calls, respond, url, requestUrl) ==
      ServeFile(files, calls, respond, CacheFile(url).value, DownloadUrl(requestUrl));
  }

  /**
   * A hit only revalidates: the cache is unchanged, a rejected HEAD withholds the
   * stored bytes, and an accepted one returns the stored record.
   */
  lemma ServeHit(files: map<string, Record>, calls: seq<Call>, respond: (nat, Call) -> Response,
                 url: string, requestUrl: string)
    requires CacheFile(url).Ok? && CacheFile(url).value in files
    ensures var resp := respond(|calls|, Call(Head, DownloadUrl(requestUrl)));
      var o := Serve(files, calls, respond, url, requestUrl);
      o.files == files &&
      (resp.status != 200 ==> o.result == Err(HttpError(resp.status, resp.reason))) &&
      (resp.status == 200 ==> o.result == DecodeRecord(files[CacheFile(url).value]))
  {
    assert Serve(files, calls, respond, url, requestUrl) ==
      ServeFile(files, calls, respond, CacheFile(url).value, DownloadUrl(requestUrl));
  }

  /** A failed request leaves the cache as it was: failures are never cached. */
  lemma ServeFailureNotCached(files: map<string, Record>, calls: seq<Call>, respond: (nat, Call) -> Response,
                              url: string, requestUrl: string)
    requires Serve(files, calls, respond, url, requestUrl).result.Err?
    ensures Serve(files, calls, respond, url, requestUrl).files == files
  {
    match CacheFile(url)
    case Err(_) =>
    case Ok(file) =>
      var resp := respond(|calls|, Call(Get, DownloadUrl(requestUrl)));
      if file !in files && resp.status == 200 {
        RecordRoundTrip(Fetched(resp));
      }
  }

  /** Write-once: no stored record is replaced or removed, and only the URL's own file can be added. */
  lemma ServeWriteOnce(files: map<string, Record>, calls: seq<Call>, respond: (nat, Call) -> Response,
                       url: string, requestUrl: string)
    ensures var o := Serve(files, calls, respond, url, requestUrl);
      (forall f :: f in files ==> f in o.files && o.files[f] == files[f]) &&
      (forall f :: f in o.files && f !in files ==> CacheFile(url) == Ok(f))
  {
    match CacheFile(url)
    case Err(_) =>
    case Ok(file) =>
      ServeFileWriteOnce(files, calls, respond, file, DownloadUrl(requestUrl));
  }

  /** `ServeWriteOnce` once the cache file is known. */
  lemma ServeFileWriteOnce(files: map<string, Record>, calls: seq<Call>, respond: (nat, Call) -> Response,
                           file: string, downloadUrl: string)
    ensures var o := ServeFile(files, calls, respond, file, downloadUrl);
      (forall f :: f in files ==> f in o.files && o.files[f] == files[f]) &&
      (forall f :: f in o.files && f !in files ==> f == file)
  {
  }

  /** If every stored record is readable, it stays so, and no request fails on a corrupt record. */
  lemma ServeKeepsReadable(files: map<string, Record>, calls: seq<Call>, respond: (nat, Call) -> Response,
                           url: string, requestUrl: string)
    requires Readable(files)
    ensures var o := Serve(files, calls, respond, url, requestUrl);
      Readable(o.files) && o.result != Err(CorruptRecord)
  {
    match CacheFile(url)
    case Err(_) =>
    case Ok(file) =>
      ServeFileKeepsReadable(files, calls, respond, file, DownloadUrl(requestUrl));
  }

  /** `ServeKeepsReadable` once the cache file is known. */
  lemma ServeFileKeepsReadable(files: map<string, Record>, calls: seq<Call>, respond: (nat, Call) -> Response,
                               file: string, downloadUrl: string)
    requires Readable(files)
    ensures var o := ServeFile(files, calls, respond, file, downloadUrl);
      Readable(o.files) && o.result != Err(CorruptRecord)
  {
    var resp := respond(|calls|, Call(Get, downloadUrl));
    if file !in files && resp.status == 200 {
      RecordRoundTrip(Fetched(resp));
    }
  }

  /**
   * A second request for the same object (the token in the query may differ) that
   * passes its HEAD check returns byte-identical content and leaves the cache unchanged.
   */
  lemma ServeAgain(files: map<string, Record>, calls: seq<Call>, respond: (nat, Call) -> Response,
                   url: string, requestUrl: string, url2: string, requestUrl2: string)
    requires CacheFile(url2) == CacheFile(url)
    requires Serve(files, calls, respond, url, requestUrl).result.Ok?
    ensures var o := Serve(files, calls, respond, url, requestUrl);
      var o2 := Serve(o.files, o.calls, respond, url2, requestUrl2);
      respond(|o.calls|, Call(Head, DownloadUrl(requestUrl2))).status == 200 ==>
        o2.result == o.result && o2.files == o.files
  {
    match CacheFile(url)
    case Err(_) =>
    case Ok(file) =>
      ServeFileAgain(files, calls, respond, file, DownloadUrl(requestUrl), DownloadUrl(requestUrl2));
  }

  /** `ServeAgain` once the shared cache file is known. */
  lemma ServeFileAgain(files: map<string, Record>, calls: seq<Call>, respond: (nat, Call) -> Response,
                       file: string, downloadUrl: string, downloadUrl2: string)
    requires ServeFile(files, calls, respond, file, downloadUrl).result.Ok?
    ensures var o := ServeFile(files, calls, respond, file, downloadUrl);
      var o2 := ServeFile(o.files, o.calls, respond, file, downloadUrl2);
      respond(|o.calls|, Call(Head, downloadUrl2)).status == 200 ==>
        o2.result == o.result && o2.files == o.files
  {
    if file !in files {
      RecordRoundTrip(Fetched(respond(|calls|, Call(Get, downloadUrl))));
    }
  }

  /** `check_access_right(url)`: a HEAD request that raises unless the origin answers 200. */
  method CheckAccessRight(url: string, origin: Remote) returns (r: Result<(), Failure>)
    modifies origin
    ensures origin.calls == old(origin.calls) + [Call(Head, url)]
    ensures var resp := origin.respond(|old(origin.calls)|, Call(Head, url));
      r == if resp.status == 200 then Ok(()) else Err(Rejected(resp))
  {
    var resp := origin.Send(Call(Head, url));
    if resp.status != 200 {
      return Err(Rejected(resp));
    }
    return Ok(());
  }

  /** The cache directory of one proxy process. */
  class AssetCache {
    /** Every cache file and the record it holds. */
    var files: map<string, Record>

    /** A cache over the files already on disk. */
    constructor (stored: map<string, Record>)
      ensures files == stored
    {
      files := stored;
    }

    /**
     * `save(file, download_url)`: nothing when the file exists; otherwise one GET,
     * which either raises with the origin's status or has its record written once.
     */
    method Save(file: string, downloadUrl: string, origin: Remote) returns (r: Result<(), Failure>)
      modifies this, origin
      ensures file in old(files) ==> r == Ok(()) && files == old(files) && origin.calls == old(origin.calls)
      ensures file !in old(files) ==>
        var resp := origin.respond(|old(origin.calls)|, Call(Get, downloadUrl));
        origin.calls == old(origin.calls) + [Call(Get, downloadUrl)] &&
        (resp.status != 200 ==> r == Err(Rejected(resp)) && files == old(files)) &&
        (resp.status == 200 ==> r == Ok(()) && files == old(files)[file := EncodeRecord(Fetched(resp))])
    {
      if file in files {
        return Ok(());
      }
      var resp := origin.Send(Call(Get, downloadUrl));
      if resp.status != 200 {
        return Err(Rejected(resp));
      }
      var record := EncodeRecord(Fetched(resp));
      files := files[file := record];
      return Ok(());
    }

    /** `cache_and_get_asset(url, request)`, for the request whose full URL is `requestUrl`. */
    method CacheAndGetAsset(url: string, requestUrl: string, origin: Remote) returns (r: Result<CachedAsset, Failure>)
      modifies this, origin
      ensures Outcome(r, files, origin.calls) == Serve(old(files), old(origin.calls), origin.respond, url, requestUrl)
    {
      var path := CacheFile(url);
      if path.Err? {
        return Err(path.error);
      }
      var file := path.value;
      var downloadUrl := DownloadUrl(requestUrl);
      var checked: Result<(), Failure>;
      if file !in files {
        checked := Save(file, downloadUrl, origin);
      } else {
        checked := CheckAccessRight(downloadUrl, origin);
      }
      if checked.Err? {
        return Err(checked.error);
      }
      r := DecodeRecord(files[file]);
    }
  }
}
