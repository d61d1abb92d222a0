/**
 * Where an asset lives in the cache and where it is fetched from
 * (`cache_and_get_asset`, server.py lines 122-128).
 *
 * The object path is cut out of the client's storage URL with three Python
 * `split`s: everything before the first `?`, then the piece after the first
 * storage host marker (up to the next one, if any), then the piece after the
 * first `/o/` (up to the next one, if any).  A missing marker makes `[1]`
 * raise an IndexError.  The path is not URL-decoded: `%2F` stays as it is.
 */
module Paths {
  import opened Common
  import opened Text
  import opened Assets

  /** The directory the cache files live in. */
  const CacheDir := "./cache"

  /** The host of the storage front end, the first marker of the path. */
  const FirebaseBaseUrl := "firebasestorage.googleapis.com"

  /** The object-container segment, the second marker of the path. */
  const ObjectMarker := "/o/"

  /**
   * The object path of a storage URL, or `MalformedUrl` when a marker is missing.  A
   * found path holds no `/o/`: it is the text between the first `/o/` and the next one.
   */
  function ObjectPath(url: string): (r: Result<string, Failure>)
    ensures r.Err? ==> r.error == MalformedUrl
    ensures r.Ok? ==> !Contains(r.value, ObjectMarker)
  {
    var noQuery := Split(url, "?")[0];
    var afterHost := Split(noQuery, FirebaseBaseUrl);
    if |afterHost| < 2 then Err(MalformedUrl)
    else
      var afterMarker := Split(afterHost[1], ObjectMarker);
      if |afterMarker| < 2 then Err(MalformedUrl)
      else
        SplitPiecesFree(afterHost[1], ObjectMarker);
        Ok(afterMarker[1])
  }

  /** `os.path.join(a, b)` on POSIX: an absolute `b` replaces `a`; otherwise one `/` between them. */
  function PathJoin(a: string, b: string): (p: string)
    ensures |b| <= |p| && p[|p| - |b|..] == b
    ensures (|b| == 0 || b[0] != '/') ==> |a| <= |p| && p[..|a|] == a
  {
    if |b| > 0 && b[0] == '/' then b
    else if |a| == 0 || a[|a| - 1] == '/' then a + b
    else a + "/" + b
  }

  /** The cache file of an object path: a name ending in the path and `.cache`, under the cache directory unless the path is absolute. */
  function CacheFileOf(path: string): (f: string)
    ensures |path| + 6 <= |f| && f[|f| - |path| - 6..] == path + ".cache"
    ensures (|path| == 0 || path[0] != '/') ==> |CacheDir| <= |f| && f[..|CacheDir|] == CacheDir
  {
    PathJoin(CacheDir, path + ".cache")
  }

  /** The cache file of a storage URL: a name ending in `.cache`, or the lookup's failure. */
  function CacheFile(url: string): (r: Result<string, Failure>)
    ensures r.Err? ==> r.error == MalformedUrl
    ensures r.Ok? ==> 6 <= |r.value| && r.value[|r.value| - 6..] == ".cache"
  {
    match ObjectPath(url)
    case Err(e) => Err(e)
    case Ok(path) => Ok(CacheFileOf(path))
  }

  /** `"=".join(str(request.url).split("=")[1:])`: the URL the origin is asked for, a tail of the request URL. */
  function DownloadUrl(requestUrl: string): (d: string)
    ensures |d| <= |requestUrl| && d == requestUrl[|requestUrl| - |d|..]
  {
    JoinRest(requestUrl, "=");
    Join(Split(requestUrl, "=")[1..], "=")
  }

  /** The object path ignores the query: the token and every other parameter after the first `?`. */
  lemma ObjectPathIgnoresQuery(base: string, query1: string, query2: string)
    requires '?' !in base
    ensures ObjectPath(base + "?" + query1) == ObjectPath(base)
    ensures ObjectPath(base + "?" + query1) == ObjectPath(base + "?" + query2)
  {
    SplitAtChar(base, '?', query1);
    SplitAtChar(base, '?', query2);
    ContainsChar(base, '?');
    SplitFree(base, "?");
  }

  /** The lookup fails exactly when the host marker is missing, or `/o/` is missing after it. */
  lemma ObjectPathFails(url: string)
    ensures var noQuery := Split(url, "?")[0];
      ObjectPath(url).Err? <==>
        !Contains(noQuery, FirebaseBaseUrl) || !Contains(Split(noQuery, FirebaseBaseUrl)[1], ObjectMarker)
    ensures ObjectPath(url).Err? ==> ObjectPath(url).error == MalformedUrl
  {
    var noQuery := Split(url, "?")[0];
    SplitHasSecond(noQuery, FirebaseBaseUrl);
    if Contains(noQuery, FirebaseBaseUrl) {
      SplitHasSecond(Split(noQuery, FirebaseBaseUrl)[1], ObjectMarker);
    }
  }

  /**
   * Once the host marker first occurs right after `site`, the object path is taken from
   * the first piece of the rest: the text up to the next host marker.
   */
  lemma ObjectPathAfterHost(site: string, rest: string)
    requires '?' !in site && '?' !in rest
    requires !Contains(site + FirebaseBaseUrl[..|FirebaseBaseUrl| - 1], FirebaseBaseUrl)
    ensures var afterMarker := Split(Split(rest, FirebaseBaseUrl)[0], ObjectMarker);
      ObjectPath(site + FirebaseBaseUrl + rest) ==
        if |afterMarker| < 2 then Err(MalformedUrl) else Ok(afterMarker[1])
  {
    var base := site + FirebaseBaseUrl + rest;
    assert '?' !in FirebaseBaseUrl;
    assert '?' !in base;
    ContainsChar(base, '?');
    SplitFree(base, "?");
    SplitAfterFirst(site, FirebaseBaseUrl, rest);
  }

  /**
   * For a storage URL `site + host + bucket + "/o/" + name [+ "?" + query]` in which
   * the host marker first occurs after `site`, does not occur again, and `/o/` first
   * occurs after `bucket` and not again, the object path is `name`.
   */
  lemma ObjectPathOfStorageUrl(site: string, bucket: string, name: string, query: string)
    requires '?' !in site && '?' !in bucket && '?' !in name
    requires !Contains(site + FirebaseBaseUrl[..|FirebaseBaseUrl| - 1], FirebaseBaseUrl)
    requires !Contains(bucket + ObjectMarker + name, FirebaseBaseUrl)
    requires !Contains(bucket + "/o", ObjectMarker) && !Contains(name, ObjectMarker)
    ensures ObjectPath(site + FirebaseBaseUrl + bucket + ObjectMarker + name + "?" + query) == Ok(name)
    ensures ObjectPath(site + FirebaseBaseUrl + bucket + ObjectMarker + name) == Ok(name)
  {
    var base := site + FirebaseBaseUrl + bucket + ObjectMarker + name;
    StorageUrlWithoutQuery(site, bucket, name);
    NoQueryInStorageUrl(site, bucket, name);
    ObjectPathIgnoresQuery(base, query, query);
  }

  /** A storage URL built from pieces without `?` has none. */
  lemma NoQueryInStorageUrl(site: string, bucket: string, name: string)
    requires '?' !in site && '?' !in bucket && '?' !in name
    ensures '?' !in site + FirebaseBaseUrl + bucket + ObjectMarker + name
  {
    assert '?' !in FirebaseBaseUrl && '?' !in ObjectMarker;
  }

  /** The case of `ObjectPathOfStorageUrl` without a query. */
  lemma StorageUrlWithoutQuery(site: string, bucket: string, name: string)
    requires '?' !in site && '?' !in bucket && '?' !in name
    requires !Contains(site + FirebaseBaseUrl[..|FirebaseBaseUrl| - 1], FirebaseBaseUrl)
    requires !Contains(bucket + ObjectMarker + name, FirebaseBaseUrl)
    requires !Contains(bucket + "/o", ObjectMarker) && !Contains(name, ObjectMarker)
    ensures ObjectPath(site + FirebaseBaseUrl + bucket + ObjectMarker + name) == Ok(name)
  {
    var rest := bucket + ObjectMarker + name;
    assert site + FirebaseBaseUrl + bucket + ObjectMarker + name == site + FirebaseBaseUrl + rest;
    assert '?' !in ObjectMarker;
    ObjectPathAfterHost(site, rest);
    SplitFree(rest, FirebaseBaseUrl);
    MarkerPieces(bucket, name);
  }

  /** With `/o/` first occurring right after `bucket` and not in `name`, the pieces are the two. */
  lemma MarkerPieces(bucket: string, name: string)
    requires !Contains(bucket + "/o", ObjectMarker) && !Contains(name, ObjectMarker)
    ensures Split(bucket + ObjectMarker + name, ObjectMarker) == [bucket, name]
  {
    assert ObjectMarker[..|ObjectMarker| - 1] == "/o";
    SplitAfterFirst(bucket, ObjectMarker, name);
    SplitFree(name, ObjectMarker);
  }

  /**
   * `split("/o/")[1]` stops at the next `/o/`: in `site + host + bucket + "/o/" + name +
   * "/o/" + more`, with the markers placed as in `ObjectPathOfStorageUrl`, the object path
   * is `name` alone, not the rest of the URL.
   */
  lemma ObjectPathStopsAtNextMarker(site: string, bucket: string, name: string, more: string)
    requires '?' !in site && '?' !in bucket && '?' !in name && '?' !in more
    requires !Contains(site + FirebaseBaseUrl[..|FirebaseBaseUrl| - 1], FirebaseBaseUrl)
    requires !Contains(bucket + ObjectMarker + name + ObjectMarker + more, FirebaseBaseUrl)
    requires !Contains(bucket + "/o", ObjectMarker) && !Contains(name + "/o", ObjectMarker)
    ensures ObjectPath(site + FirebaseBaseUrl + bucket + ObjectMarker + name + ObjectMarker + more) == Ok(name)
  {
    var tail := name + ObjectMarker + more;
    var rest := bucket + ObjectMarker + tail;
    assert site + FirebaseBaseUrl + bucket + ObjectMarker + name + ObjectMarker + more == site + FirebaseBaseUrl + rest;
    assert rest == bucket + ObjectMarker + name + ObjectMarker + more;
    assert '?' !in ObjectMarker;
    ObjectPathAfterHost(site, rest);
    SplitFree(rest, FirebaseBaseUrl);
    assert ObjectMarker[..|ObjectMarker| - 1] == "/o";
    SplitAfterFirst(bucket, ObjectMarker, tail);
    SplitAfterFirst(name, ObjectMarker, more);
  }

  /**
   * `split(FIREBASE_BASE_URL)[1]` stops at the next host marker: in `site + host + bucket +
   * "/o/" + name + host + more`, the object path is `name`, cut before the second host.
   */
  lemma ObjectPathStopsAtNextHost(site: string, bucket: string, name: string, more: string)
    requires '?' !in site && '?' !in bucket && '?' !in name && '?' !in more
    requires !Contains(site + FirebaseBaseUrl[..|FirebaseBaseUrl| - 1], FirebaseBaseUrl)
    requires !Contains(bucket + ObjectMarker + name + FirebaseBaseUrl[..|FirebaseBaseUrl| - 1], FirebaseBaseUrl)
    requires !Contains(bucket + "/o", ObjectMarker) && !Contains(name, ObjectMarker)
    ensures ObjectPath(site + FirebaseBaseUrl + bucket + ObjectMarker + name + FirebaseBaseUrl + more) == Ok(name)
  {
    var piece := bucket + ObjectMarker + name;
    var rest := piece + FirebaseBaseUrl + more;
    assert site + FirebaseBaseUrl + bucket + ObjectMarker + name + FirebaseBaseUrl + more == site + FirebaseBaseUrl + rest;
    assert '?' !in FirebaseBaseUrl && '?' !in ObjectMarker;
    ObjectPathAfterHost(site, rest);
    SplitAfterFirst(piece, FirebaseBaseUrl, more);
    MarkerPieces(bucket, name);
  }

  /** A path that does not start with `/` is filed under the cache directory. */
  lemma CacheFileUnderCacheDir(path: string)
    requires |path| == 0 || path[0] != '/'
    ensures CacheFileOf(path) == CacheDir + "/" + path + ".cache"
  {
  }

  /** A path that starts with `/` is absolute, so `os.path.join` drops the cache directory. */
  lemma CacheFileOfAbsolutePath(path: string)
    requires |path| > 0 && path[0] == '/'
    ensures CacheFileOf(path) == path + ".cache"
  {
  }

  /** Different object paths never share a cache file. */
  lemma CacheFileInjective(path1: string, path2: string)
    requires CacheFileOf(path1) == CacheFileOf(path2)
    ensures path1 == path2
  {
    if |path1| == |path2| {
      var f1 := path1 + ".cache";
      assert path1 == f1[..|path1|];
    } else {
      if |path1| > 0 && path1[0] == '/' { CacheFileOfAbsolutePath(path1); } else { CacheFileUnderCacheDir(path1); }
      if |path2| > 0 && path2[0] == '/' { CacheFileOfAbsolutePath(path2); } else { CacheFileUnderCacheDir(path2); }
    }
  }

  /** After the first `=` of the request URL, the text is kept verbatim, later `=` included. */
  lemma DownloadUrlAfterFirstEquals(before: string, after: string)
    requires '=' !in before
    ensures DownloadUrl(before + "=" + after) == after
  {
    SplitAtChar(before, '=', after);
    assert Split(before + "=" + after, "=")[1..] == Split(after, "=");
    JoinSplit(after, "=");
  }

  /** A request URL without `=` yields the empty download URL. */
  lemma DownloadUrlWithoutEquals(requestUrl: string)
    requires '=' !in requestUrl
    ensures DownloadUrl(requestUrl) == ""
  {
    ContainsChar(requestUrl, '=');
    SplitFree(requestUrl, "=");
  }
}
